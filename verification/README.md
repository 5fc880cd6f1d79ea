# A Dafny model of the marketplace's hard logic

The platform runs live card breaks with a verifiable shuffle and a hash-chained pull log, keeps
collections that travel as CSV, resizes uploaded photographs, publishes price and pull-rate
statistics, and sells cards through Stripe with held payouts. This project models the parts of it
where a small mistake is expensive and proves what they promise, over every input, every
interleaving and every reachable state. Where a promise does not hold of the code as it stands, a
lemma gives the input that breaks it and another says exactly when it does hold.

`dafny verify dfyconfig.toml` checks the whole project.

## Modules

| Module | Models |
|---|---|
| `Shuffle` | the commit-reveal shuffle: rejection sampling over a byte stream driving an in-place Fisher-Yates |
| `PullChain` | canonical JSON of a pull, its hash, and the walk that checks a log |
| `PullLog` | the transactions that append pulls and change a break's status, in every interleaving, and the log as it is read back |
| `Csv`, `CsvFiles` | the CSV printer with its formula guard, the hand-written parser, the row mapper; what the parser makes of any file |
| `CollectionCsv` | money, dates, the header check and the row schema of the collection file |
| `CollectionStore`, `CollectionTransfer`, `CollectionImport` | the merge rule, the export and the import; what an import file says and does |
| `StripeAccounts` | concurrent and retried creation of a connected account over Stripe's idempotency keys |
| `Resample` | the stored photo size and the box filter with its four loops |
| `ImageHeaders` | the JPEG segment and PNG chunk walkers and the upload inspection |
| `Pricing`, `Rarity` | trimmed interpolated percentiles; the Wilson verdict on published odds |
| `Paging` | keyset paging over a table that changes between pages |
| `Windows`, `IdentifierLimit`, `Quota` | fixed counting windows in a bounded map and behind a sweeper |
| `Orders`, `OrderTables` | the order state machine; order rows, their checks and indexes, and what each Stripe event does to them |
| `Webhook`, `WebhookTransactions` | at-least-once deliveries among everything else that happens to orders; the same as interleaved transactions |
| `Payouts` | onboarding sellers, held payouts and the jobs that complete orders and release holds |
| `SigV4` | percent-encoding, the canonical query and path |
| `Wrappers`, `Arith`, `Bytes`, `Text`, `Utf8`, `Uuids`, `Sorting` | shared: results, division, words, text, UTF-8, the `uuid` type, sorting by key |

## What is taken as given

- SHA-256 and HMAC are arbitrary functions. The pull-log theorems name a collision, or a row hashing
  to the genesis value, as the only way out; digests are 64 hex characters long.
- Division, square roots and averages are exact: rationals in `Pricing` and `Resample`, reals in
  `Rarity`. For the quarters and the tenth the price index uses, the floats of the source give the
  same whole cents. For the boxes of `Resample` they do not always: what is said of exact ratios has a
  counterpart for starts rounded in any way. The normal quantile is a parameter of which only
  monotonicity is used.
- A database transaction is split into its statements in `PullLog` and `WebhookTransactions`, where the
  interleaving is the point. Elsewhere it is one atomic step; the order moves lock their row first, the
  collection writes do not (see "Left out").
- `StripeAccounts` makes what Stripe does with idempotency keys a parameter, and proves which of it matters.
- Characters are Unicode scalar values, so a lone surrogate is not a string here.

## Where the code falls short of its promise

- `StripeAccounts.TwoParameterSetsTwoAccounts`: a retry by a deployment that builds the request
  differently (as when the contact email was added to it) is refused for its different parameters, takes
  that for proof that nothing exists, and creates a second account. `OneAccountIff` adds what is assumed
  of Stripe: an unsaved refusal, a busy key answered as a misused one, or a key forgotten after its 24
  hours each break the promise too.
- `Resample.RoundingLeavesTheRange`: an average can round to a value outside its box's range.
- `Resample.DoublesLoseAColumn`: the box starts are computed in doubles, and a side of 1606 pixels stored
  at 1600 ends at 1605: its last column is never read. `ReadOnceIffCovered` says when none is missed.
- `PullLog.CapitalsAreReported`: a pull whose card id was sent in capitals is hashed as sent and stored in
  lower case, so the public check reports the log as altered, for ever. So would deleting a card from
  the catalogue. `AcceptedAsReadIff` is the exact rule.
- `ImageHeaders.TemHidesTheFrame`: a TEM marker before the frame header of a complete JPEG hides it;
  `ReadRightIffNoTemBefore` says which files are read right.
- `IdentifierLimit.BoundedIff`: with `maxEntries` zero the map still holds one entry.
  `IdentifierLimit.TwiceMaxIff`: with `max` zero the first request of each window is still granted.
- `PullLog.TimesCanMove`: two concurrent starts of a break both succeed, and the second moves its start
  time; likewise two ends. `TimeMovesIff` says exactly when.
- `Csv.RoundTrip`: a blank row disappears, and a blank header promotes the first data row.
- `Webhook.OvertakingRefundIsLost`: a refund delivered before its payment is acknowledged and forgotten.
  `WebhookTransactions.OvertakenByThePayment`: so is one that commits after the payment but looked the
  order up before, so the commits in their order do not always explain the tables.
- `Payouts.CrashBeforeTheHold`: an onboarding request that ends between recording the account and writing
  its hold leaves a row that says released over a manual schedule, and no later request or job mends it.
- `Payouts.UndeliveredRelease`: an admin who completes disputed orders whose parcels never arrived can
  release their seller; `EarnedIff` says exactly which completions do no harm.
- `Payouts.InterruptedThenDisputed`: a release interrupted after Stripe took it is not finished by a
  rerun if one of the three orders has been disputed meanwhile: the payouts run and the row says held.
  (The rule's documentation counts the completed orders a seller has ever had; the query counts those
  completed at the moment, and the model follows it.)

## Model

| member | source | states |
|---|---|---|
| Shuffle.RandomBelow | packages/core/src/fairness.ts:90-103 | the remainder of the first four-byte big-endian number below the largest multiple of the bound within 2^32, leaving the stream right after it; nothing when the stream ends before one |
| Shuffle.ShuffleInPlace | packages/core/src/fairness.ts:123-135 | the array ends as the Fisher-Yates walk of its old contents by the accepted draws, or the stream ran out |
| Shuffle.DeriveShuffle | packages/core/src/fairness.ts:110-138 | refuses a count below one, a missing seed and a count no array can have, and otherwise gives the walk of 0..count-1 |
| Shuffle.VerifyShuffle | packages/core/src/fairness.ts:147-166 | whether the seed hashes to the commitment, whether the claimed order is the derived one, and valid exactly when both |
| Shuffle.StreamDeals | packages/core/src/fairness.ts:90-138 | a stream that begins with, for each position from the last to 1, the bytes of any refused words and of one accepted word deals the order from 0..n by those words' remainders, whatever follows |
| Shuffle.WalkIsDealing | packages/core/src/fairness.ts:129-135 | the swaps deal from the back: the drawn card goes last and the last card fills its place |
| Shuffle.WalkIsInjective | packages/core/src/fairness.ts:129-135 | different vectors of draws never lead to the same order |
| Shuffle.DrawsOfPermutation | packages/core/src/fairness.ts:129-135 | every permutation of 0..n-1 comes from exactly one vector of draws |
| Shuffle.DerivedIsPermutation | packages/core/src/fairness.ts:105-138 | every derived order is a permutation of 0..count-1 |
| Shuffle.EveryResidueEquallyLikely | packages/core/src/fairness.ts:83-103 | each residue has exactly 2^32 / bound accepted words, and more than half of all words are accepted |
| Shuffle.EveryPermutationEquallyLikely | packages/core/src/fairness.ts:83-138 | every permutation is the outcome of the same positive number of accepted word sequences |
| Shuffle.EveryAcceptedSequenceOccurs | packages/core/src/fairness.ts:70-103 | each accepted word sequence is what some byte stream delivers |
| Shuffle.MoreStreamSameOrder | packages/core/src/fairness.ts:70-103 | bytes after the ones read change nothing, so a finite prefix of the endless stream decides the order |
| Shuffle.CanFinishIffAccepted | packages/core/src/fairness.ts:110-121 | some stream finishes the shuffle exactly when the count and the seeds are not refused |
| PullChain.CanonicalIgnoresKeyOrder | packages/core/src/fairness.ts:182-198 | entries in any order canonicalise to the same text |
| Sorting.BeforeIff | packages/core/src/fairness.ts:191-195 | the sort order: the first difference decides, and a proper prefix comes first |
| PullChain.CanonicalPullText | packages/core/src/fairness.ts:190-197 | a pull's canonical text, literally: its six keys in this order, without white space |
| PullChain.EscapeTable | packages/core/src/fairness.ts:196 | how each character of a string is written |
| PullChain.QuotedOneByOne | packages/core/src/fairness.ts:196 | a string is its characters so written, one after another, between quotes |
| Text.DecimalDigits | packages/core/src/fairness.ts:196 | each digit of a printed number, by its power of ten |
| PullChain.CanonicalPullInjective | packages/core/src/fairness.ts:190-198 | two pulls with the same canonical text are the same pull |
| PullChain.VerifyChain | packages/core/src/fairness.ts:211-229 | valid exactly for well-linked logs; otherwise the seq of the first row that does not link |
| PullChain.WellLinkedIff | packages/core/src/fairness.ts:200-227 | what linking takes: 64 zeros or the row hash before, and the hash of that followed by the canonical text |
| PullChain.SameTipSameLog | packages/core/src/fairness.ts:200-229 | accepted logs ending in the same hash are equal row for row, unless they exhibit a collision or hit the genesis value |
| PullChain.PrefixAccepted | packages/core/src/fairness.ts:211-229 | a prefix of an accepted log is accepted: a cut tail is not detected |
| PullLog.StepKeepsInv | packages/db/src/queries/breaks.ts:246-332 | every step of every transaction keeps the log, as it was hashed, contiguous and linked, and each held link right for its sequence number |
| PullLog.EveryReachableLogIsLinked | packages/db/src/queries/breaks.ts:246-332 | in every interleaving the committed rows are numbered 1..n, never fork, and as hashed each links to the one before |
| PullLog.AcceptedAsReadIff | packages/db/src/queries/fairness.ts:266-290 | in every run, the log as read back is one the verifier accepts exactly when every card id was written as its column prints it and its card is still there, or two texts hash alike |
| PullLog.CapitalsAreReported | apps/api/src/routes/breaks.ts:48-52 | every card id with a capital letter makes a run whose log fails its own check |
| PullLog.AlteredForEver | packages/db/src/schema/breaks.ts:119-121 | a pull once read back differently stays so in the rest of the run |
| Uuids.StoredIsStable | packages/db/src/schema/breaks.ts:119-121 | an id as the column prints it comes back unchanged |
| Uuids.StoredIsLowerCase | packages/db/src/schema/breaks.ts:119-121 | an id of the shape the routes take comes back in lower case, and as it went in exactly when it had no capitals |
| PullLog.EarlierLogIsPrefix | packages/db/src/queries/breaks.ts:246-332 | an earlier log is a prefix of every later one |
| PullLog.StatusNeverGoesBack | packages/db/src/queries/breaks.ts:103-139 | draft, live, ended, one way, in every interleaving of changes that read and then update without a lock |
| PullLog.TimeMovesIff | packages/db/src/queries/breaks.ts:114-137 | in every run a start or end time once set changes at a step exactly when that step writes, with another time, a change read before the time was set |
| PullLog.TimeIsFixed | packages/db/src/queries/breaks.ts:114-137 | and it is fixed for good once nobody is still to write it |
| PullLog.TimesCanMove | packages/db/src/queries/breaks.ts:114-137 | a run in which a second start moves the start and a second end the end |
| PullLog.PullTable.SetRead | packages/db/src/queries/breaks.ts:114-124 | goes on exactly from draft to live or from live to ended |
| PullLog.PullTable.SetWrite | packages/db/src/queries/breaks.ts:127-137 | updates the row whatever its status is by then, unless the check refuses |
| PullLog.PullTable.SetStatus | packages/db/src/queries/breaks.ts:108-139 | undisturbed: draft to live, or live to ended from its start on; anything else changes nothing |
| PullLog.PullTable.Begin | packages/db/src/queries/breaks.ts:253-267 | a transaction starts only on a live break below its limit |
| PullLog.PullTable.ReadTip | packages/db/src/queries/breaks.ts:288-296 | the transaction now holds the next number and the hash of the last committed row, or 1 and the genesis value |
| PullLog.PullTable.Insert | packages/db/src/queries/breaks.ts:298-330 | refused, and rolled back, for a value its column or a check rejects, a taken number or a missing card, in that order; otherwise the row is written with its hash |
| PullLog.PullTable.DeleteCard | packages/db/src/schema/breaks.ts:119-121 | a card leaves unless a pull would be left with nothing to identify it |
| PullLog.PullTable.LogPull | packages/db/src/queries/breaks.ts:246-332 | undisturbed, one call appends exactly one row to the log, or says why not and leaves it alone |
| PullLog.PullIs | packages/db/src/queries/breaks.ts:271-305 | what is logged of a pull: a typed value as manual, a blank filled from the index or with zero, and where it came from |
| PullLog.RefusalIff | packages/db/src/queries/breaks.ts:307-330 | an insert goes through exactly for a pull that can be logged, at a free number, of a card that is there |
| PullLog.EveryLoggedPullIsLoggable | packages/db/src/schema/breaks.ts:148-153 | in every interleaving only pulls with an amount the column holds and a card, or a label that is not blank, are logged |
| Csv.ParseCsv | packages/security/src/csv.ts:91-170 | the loop over characters computes what the scanner defines, which `CsvFiles` characterises |
| Csv.FinalCapIsUnreachable | packages/security/src/csv.ts:114-123 | the cap check after the loop never fires |
| CsvFiles.FileIsRead | packages/security/src/csv.ts:91-170 | what any file says and how it is refused: bare and quoted cells, LF, CR and CRLF alike, blank lines, a byte-order mark, a stray quote with its row, an open quote, the caps |
| CsvFiles.EveryTextIsRead | packages/security/src/csv.ts:91-170 | every text is such a file, and is read as what it says however it is taken apart |
| CsvFiles.ExportIsFile | packages/security/src/csv.ts:20-49 | an export is the file with every cell in quotes, an apostrophe before what would start a formula, and CRLF between the lines |
| Text.TrimParts | packages/security/src/csv.ts:169 | trimming takes ECMAScript's white space off both ends, all of it and nothing else |
| Utf8.EncodedCharIsWellFormed | packages/security/src/csv.ts:95 | the bytes counted against the limit are RFC 3629's |
| Csv.ParseOfPrinted | packages/security/src/csv.ts:91-170 | what parsing makes of every printed document, whatever its cells and size |
| Csv.RoundTrip | packages/security/src/csv.ts:20-170 | within the limits, the guarded cells come back, the header trimmed, exactly when no row is blank |
| Csv.ReadDataIsInertAndStable | packages/security/src/csv.ts:20-49 | no data cell read back starts a formula, and exporting the rows again gives the same text |
| Csv.MapCsvRows | packages/security/src/csv.ts:178-214 | the records, their file rows and the complaints, as the specification lists them |
| Csv.EveryRowIsAccountedFor | packages/security/src/csv.ts:178-214 | each row is a record that knows its own line or a complaint, never both and never neither |
| CollectionCsv.MoneyRoundTrip | packages/core/src/collections.ts:47-72 | a printed amount reads back as itself exactly from zero up to nine whole digits, and as nothing otherwise |
| CollectionCsv.WrittenAmountsSettle | packages/core/src/collections.ts:47-72 | however an amount was written, printing what was read and reading it again gives the same cents |
| CollectionCsv.AmountsRead | packages/core/src/collections.ts:47-65 | whole units, or units and one or two decimals, after a currency symbol or none, are read as what they say |
| CollectionCsv.CommasDoNotCount | packages/core/src/collections.ts:48-51 | commas after the first character change nothing |
| CollectionCsv.AmountText | packages/core/src/collections.ts:68-72 | how an amount is printed, digit by digit |
| CollectionCsv.DayRoundTrip | packages/core/src/collections.ts:112-117 | a date survives exactly when it is a midnight no later than the year 9999 |
| CollectionCsv.DayTextDigits | packages/db/src/queries/collections.ts:592-603 | how a date is printed, digit by digit |
| CollectionCsv.MonthsOfTheCalendar | packages/core/src/collections.ts:113-117 | which days exist |
| CollectionCsv.ValidateCollectionCsvHeader | packages/core/src/collections.ts:132-147 | the problems in order: unknown and duplicate columns, then missing required ones |
| CollectionCsv.HeaderAcceptedIff | packages/core/src/collections.ts:132-147 | no problems exactly when all columns are known, none is repeated up to case and spaces, and the required ones are there |
| CollectionStore.CostKnownIffAllKnown | packages/db/src/queries/collections.ts:282-289 | after any sequence of merges the line's cost is known exactly when every purchase's was |
| CollectionStore.FirstNoteStays | packages/db/src/queries/collections.ts:222-279 | the line keeps the first note given, the first date, one currency and the sum of the quantities |
| CollectionStore.CostStaysWithinWhatWasPaid | packages/db/src/queries/collections.ts:222-289 | the stored unit cost stays between the lowest and highest cost paid |
| CollectionStore.CostDriftIsBounded | packages/db/src/queries/collections.ts:222-289 | twice the difference between stored and paid totals is at most the sum of the merged quantities |
| CollectionStore.AddAllOkIff | packages/db/src/queries/collections.ts:222-279 | purchases the table would take one by one merge exactly when they agree on the currency and come to at most 100000 |
| CollectionTransfer.Collection.UpsertItem | packages/db/src/queries/collections.ts:200-279 | merges, overwrites or refuses a line, also a new one of a card that is not there; a refused write leaves every line as it was |
| CollectionTransfer.Collection.ImportCollectionCsv | packages/db/src/queries/collections.ts:644-778 | the report and the new lines of the specification; a dry import changes nothing and an error rolls the whole file back |
| CollectionTransfer.TextSurvivesIff | packages/db/src/queries/collections.ts:592-603 | a text cell comes back as it went out exactly when it is trimmed and starts no formula |
| CollectionTransfer.LineComesBack | packages/db/src/queries/collections.ts:592-603 | the schema reads an exported line back field by field |
| CollectionTransfer.LookupFinds | packages/db/src/queries/collections.ts:780-824 | with keys unique up to case, a card's key finds its own variant |
| CollectionImport.NamedCardIsFound | packages/db/src/queries/collections.ts:780-824 | the only card a row fits, by set code and number up to case and by finish and language or their defaults, is the one found |
| CollectionImport.RowMeansIff | packages/core/src/collections.ts:90-122 | a row is accepted, and as this, exactly when that is what its cells say, column by column |
| CollectionImport.DefaultsMayBeLeftOut | packages/db/src/queries/collections.ts:644-792 | a file that leaves out or blanks condition, finish, language or currency gives the same lines and report as one that writes nm, normal, en and USD |
| CollectionImport.NewLinesArrive | packages/db/src/queries/collections.ts:707-778 | rows about distinct lines that are not there are all created, under their condition or nm and at their currency or USD, and nothing else changes |
| CollectionImport.ComplaintsIff | packages/db/src/queries/collections.ts:682-733 | what an import complains of, exactly: each row of the wrong length, each cell the schema objects to, each row whose card is not there, each row about a line an earlier one is about, with their rows in the file |
| CollectionImport.RefusedFileChangesNothing | packages/db/src/queries/collections.ts:663-680 | a file that does not parse, or has a bad header, is reported as that alone and changes nothing |
| CollectionTransfer.ExportThenReplaceChangesNothing | packages/db/src/queries/collections.ts:584-778 | an owner's export imported back in replace mode reports no errors, creates nothing, updates every line and changes none |
| StripeAccounts.KeysAreDistinct | apps/api/src/payments/stripe.ts:200-204 | keys of different users or attempts differ |
| StripeAccounts.FiveKeys | apps/api/src/payments/stripe.ts:185-204 | the five keys a call may use, and what it does with each reply under each |
| StripeAccounts.StepKeepsInv | apps/api/src/payments/stripe.ts:324-340 | with one set of parameters, and Stripe as assumed, a caller on key k implies cached refusals on every key below k, under every step |
| StripeAccounts.SameAccountForEverybody | apps/api/src/payments/stripe.ts:187-204 | then, however calls interleave, retry and lose replies, at most one account exists, every call that returns yields it, and its payouts are manual |
| StripeAccounts.TwoParameterSetsTwoAccounts | apps/api/src/payments/stripe.ts:232-239 | two calls with different parameters can create two accounts |
| StripeAccounts.UnsavedRefusalTwoAccounts | docs/adr/044-an-idempotency-key-can-be-poisoned.md:82-86 | and so can equal calls when a refusal is not saved under its key |
| StripeAccounts.BusyKeyTwoAccounts | apps/api/src/payments/stripe.ts:232-239 | or when a key still in use answers like a misused one |
| StripeAccounts.ForgottenKeyTwoAccounts | apps/api/src/payments/stripe.ts:314-319 | or when a key is forgotten |
| StripeAccounts.OneAccountIff | apps/api/src/payments/stripe.ts:311-340 | at most one account in every run exactly when all calls carry the same parameters and, if there are any, Stripe does none of the three |
| StripeAccounts.Stripe.CreateConnectedAccount | apps/api/src/payments/stripe.ts:324-367 | one call's key walk: what it returns is held and is the account that was there if any was; a retry with its replies heard adopts it |
| Resample.DisplaySizeFits | packages/photos/src/reencode.ts:211-225 | never enlarged, never empty, within the cap; shrinking, the longest side becomes the cap and the other keeps its proportion to half a pixel |
| Resample.BoxWithin | packages/photos/src/reencode.ts:167-181 | no box is empty or reaches past the source |
| Resample.BoxesTile | packages/photos/src/reencode.ts:167-175 | shrinking by an exact ratio, a source column lies in the box of one output column, which is computed, and in no other |
| Resample.TilesIffNotEnlarged | packages/photos/src/reencode.ts:144-175 | with exact ratios every source column is read by exactly one box exactly when the picture is not enlarged |
| Resample.ReadOnceIffCovered | packages/photos/src/reencode.ts:167-175 | with starts rounded in any way that never goes back, exactly when no two boxes start together and the last reaches the end |
| Resample.ReadsUpToTheLastEnd | packages/photos/src/reencode.ts:167-175 | with starts that always rise, the columns before the last end are read once and no others at all |
| Resample.DoublesLoseAColumn | packages/photos/src/reencode.ts:144-175 | in doubles, 1606 columns stored as 1600 end at 1605 |
| Resample.StoredPhotoReadsEveryPixelOnce | packages/photos/src/reencode.ts:212-247 | at the stored size, with exact ratios, every pixel of the upload is read by exactly one pixel of the photo |
| Resample.Resample | packages/photos/src/reencode.ts:156-208 | every byte of the output: each channel the rounded average of its box over white, opaque |
| Resample.AverageWithinRoundedExtremes | packages/photos/src/reencode.ts:174-205 | an output channel lies between the rounded extremes of its box |
| Resample.AveragesStayWithinIff | packages/photos/src/reencode.ts:174-205 | it lies between the extremes themselves, for all boxes of that range, exactly when neither end rounds outwards |
| Resample.OpaqueAveragesStayWithin | packages/photos/src/reencode.ts:181-187 | for opaque pictures it always does |
| Resample.RoundingLeavesTheRange | packages/photos/src/reencode.ts:205 | a half-transparent dark pixel that rounds out of its range |
| ImageHeaders.ReadJpegHeader | packages/security/src/images.ts:156-207 | for every byte string the walk terminates within bounds and gives what the marker grammar gives |
| ImageHeaders.FindJpegApp1Exif | packages/security/src/images.ts:247-273 | the same for the search for an Exif segment |
| ImageHeaders.FindPngTextChunk | packages/security/src/images.ts:282-296 | the same for the chunk walk, for any four-letter name |
| ImageHeaders.ChunkType | packages/security/src/images.ts:275-280 | a four-letter name as the big-endian word the file stores |
| ImageHeaders.MarkersOfTheStandard | packages/security/src/images.ts:156-207 | the markers taken to stand alone and those taken to head a frame are the standard's, but for TEM |
| ImageHeaders.LaidOutFilesAreReadRight | packages/security/src/images.ts:156-273 | on every laid-out JPEG the first frame's dimensions are returned, and Exif is reported exactly when an APP1 Exif segment is there |
| ImageHeaders.CutAtTem | packages/security/src/images.ts:164-204 | of a file with TEM markers, what comes before the first is read right, and what follows only from where the leap lands, 65,280 bytes and the next marker's value further on |
| ImageHeaders.ReadRightIffNoTemBefore | packages/security/src/images.ts:156-273 | read right whenever a frame header precedes any TEM; when at most 65,283 bytes follow the first TEM, exactly then or when there is none, and `hasExif` exactly when no Exif comes only after it |
| ImageHeaders.TemHidesTheFrame | packages/security/src/images.ts:171-184 | a complete 8 by 8 JPEG whose frame header is missed |
| ImageHeaders.PngFilesAreReadRight | packages/security/src/images.ts:138-146 | the dimensions come from IHDR and only from it, and eXIf is found exactly when a chunk is one |
| ImageHeaders.LaidOutJpegAcceptedIff | packages/security/src/images.ts:309-348 | a laid-out JPEG is accepted exactly when small enough, not declared PNG, its first frame within the limits and its scan ending in EOI |
| ImageHeaders.LaidOutJpegAnswered | packages/security/src/images.ts:309-348 | and why it is turned away: the first of seven reasons that applies, within 200 to 8000 a side and 24 million pixels |
| ImageHeaders.LaidOutPngAcceptedIff | packages/security/src/images.ts:309-348 | likewise, a chunked PNG is accepted exactly when small enough, not declared JPEG, its first chunk IHDR with dimensions within the limits, and its last chunk ending as IEND does |
| ImageHeaders.LaidOutPngAnswered | packages/security/src/images.ts:309-348 | and why it is turned away |
| Pricing.PercentileBetweenNeighbours | packages/core/src/pricing.ts:58-78 | a percentile lies between the two entries around its position |
| Pricing.PercentileIsNearest | packages/core/src/pricing.ts:58-78 | a percentile is the whole cents nearest the point in proportion between those two entries, halves going up |
| Pricing.PercentilesRise | packages/core/src/pricing.ts:58-78 | a higher percentile is never lower, and none leaves the range of the list |
| Pricing.SummaryExists | packages/core/src/pricing.ts:86-124 | a summary exists exactly for enough non-negative prices; the other outcomes, exactly when |
| Pricing.SummaryIsOrdered | packages/core/src/pricing.ts:86-124 | low, p25, median, p75 and high are in order |
| Pricing.SummaryParts | packages/core/src/pricing.ts:103-124 | quartiles and median are those of the trimmed list, the ends those of the whole one |
| Pricing.SummaryByDefault | packages/core/src/pricing.ts:86-124 | unless told otherwise: none below three prices, and a tenth trimmed from each end |
| Pricing.MedianSplitsInHalf | packages/core/src/pricing.ts:3-12 | at least half of all observations are at most the published median and at most half are below it |
| Pricing.OrderDoesNotMatter | packages/core/src/pricing.ts:103-105 | equal multisets of prices have equal summaries |
| Pricing.RaisingNeverLowers | packages/core/src/pricing.ts:86-124 | raising observations pointwise lowers no published statistic |
| Pricing.OutliersCannotMoveTheMiddle | packages/core/src/pricing.ts:36-49 | replacing up to the trimmed number of observations keeps the quartiles and the median within the range of the untouched ones |
| Pricing.ApplySourceWeights | packages/core/src/pricing.ts:166-175 | each observation counts as often as it weighs: counts at or below any price are sums of weights |
| Pricing.WeightedRank | packages/core/src/pricing.ts:145-175 | the price at a rank of the expanded list is the weighted one |
| Rarity.InsideIff | packages/core/src/rarity.ts:164-186 | a rate lies between the unclamped bounds exactly when n(observed - p)^2 <= z^2 p(1 - p) |
| Rarity.ClampsNeverAct | packages/core/src/rarity.ts:185 | the bounds lie in [0, 1] around the observed rate by themselves |
| Rarity.VerdictIff | packages/core/src/rarity.ts:241-244 | past the floors, consistent exactly when that test does not reject, otherwise above or below with the sign of the difference |
| Rarity.LargerZStaysConsistent | packages/core/src/rarity.ts:207-245 | a larger z never turns consistent into anything else |
| Rarity.TogetherNeverAccusesMore | packages/core/src/rarity.ts:255-267 | comparing rarities together never makes a finding out of one that was consistent alone |
| Rarity.UnpublishedRowsDoNotCount | packages/core/src/rarity.ts:247-267 | a rarity without published odds changes no other row's comparison |
| Rarity.EachIsComparedAlone | packages/core/src/rarity.ts:247-267 | each rarity is compared on its own, at the level for as many comparisons as publish odds, or one |
| Paging.ClampLimit | packages/db/src/queries/catalog.ts:15-18 | a page size between 1 and 100, the whole part of what was asked where that is possible |
| Paging.PageFacts | packages/db/src/queries/catalog.ts:20-24 | a page is the first rows past the cursor and says there is more exactly when there is |
| Paging.NeverRepeats | packages/db/src/queries/catalog.ts:68-87 | over a changing table the ids read are strictly increasing |
| Paging.NothingIsSkipped | packages/db/src/queries/catalog.ts:68-87 | every row present throughout is returned |
| Paging.PresentRowsAppearOnce | apps/api/src/v1/docs.ts:118-121 | and exactly once |
| Paging.PageIsFromTable | packages/db/src/queries/catalog.ts:80-86 | nothing is returned that was not there when its page was fetched |
| Paging.WholeTableIsRead | packages/db/src/queries/catalog.ts:68-87 | on a fixed table the pages concatenate to it, in max(1, ceil(n / limit)) pages |
| IdentifierLimit.Limiter.TakeOne | packages/auth/src/identifier-limit.ts:66-88 | the new map in insertion order and the answer, as specified |
| IdentifierLimit.Limiter.Sweep | packages/auth/src/identifier-limit.ts:61-63 | exactly the live entries stay, in order |
| IdentifierLimit.BoundedIff | packages/auth/src/identifier-limit.ts:77-85 | whatever is asked and whatever the clock does, never more than `maxEntries` entries, or one; and `maxEntries` itself is a bound exactly when it is at least one |
| IdentifierLimit.AnswersLikeUnbounded | packages/auth/src/identifier-limit.ts:57-90 | on every run that evicts no live entry the limiter answers like an unbounded fixed-window counter |
| IdentifierLimit.LiveEvictionShows | packages/auth/src/identifier-limit.ts:79-83 | evicting a live entry can be noticed: some continuation is answered differently |
| IdentifierLimit.AtMostTwiceTheAllowance | packages/auth/src/identifier-limit.ts:66-88 | so at most twice the larger of one and `max` is granted in any span as long as a window |
| IdentifierLimit.TwiceMaxIff | packages/auth/src/identifier-limit.ts:66-88 | and at most twice `max`, in every such run, exactly when `max` is at least one |
| IdentifierLimit.AtMostTenAMinute | packages/auth/src/identifier-limit.ts:57-58 | as it is set up: at most ten a minute |
| Quota.QuotaStore.Count | apps/api/src/plugins/quota.ts:69-74 | both windows bumped or restarted, and the totals returned |
| Quota.QuotaStore.Sweep | apps/api/src/plugins/quota.ts:76-83 | exactly the live windows of both stores stay |
| Quota.SweepingIsInvisible | apps/api/src/plugins/quota.ts:76-100 | however often the sweeper acts, every request is told what it would have been told without it |
| Quota.CountsAreTrue | apps/api/src/plugins/quota.ts:69-100 | every count told is the number of the key's requests since its window began, which is less than a window ago |
| Quota.TotalsAreTrue | apps/api/src/plugins/quota.ts:69-74 | so the two totals a request is told are those of its minute's and its day's window |
| Orders.PaidOnce | packages/core/src/orders.ts:91-149 | an order was paid, once, exactly when it is beyond created and was not cancelled straight from it |
| Orders.WhoMovedIt | packages/core/src/orders.ts:14-36 | payment and refund are Stripe's, completion never a party's, delivery never the seller's |
| Orders.WhoMayDoWhat | packages/core/src/orders.ts:91-149 | the table of moves, read by actor, and which refusals are of a move nobody may make |
| Orders.AtMostSixSteps | packages/core/src/orders.ts:91-149 | without a dispute resolved for the seller, at most six steps |
| Orders.NoBoundWithResolutions | packages/core/src/orders.ts:140-146 | with such resolutions histories of every length exist |
| Orders.CompletedWasDeliveredIff | packages/core/src/orders.ts:101-146 | a completed order was delivered exactly when it was never disputed before delivery |
| OrderTables.HandleKeepsInv | apps/api/src/routes/stripe-webhook.ts:248-252 | every handler keeps rows in step with their histories and checks, the intent index exact, sessions unique and at most one open order per listing |
| OrderTables.HandlerMovesIff | apps/api/src/routes/stripe-webhook.ts:279-462 | which event moves an order where, exactly: paid checkouts, full refunds and chargebacks of its own payment, from the states that allow it, and no other order |
| OrderTables.HandlerWrites | packages/db/src/queries/orders.ts:193-256 | everything an event writes about the order it is about: status, history, intent, session and tax, the listing sold, and the audit entry |
| OrderTables.HandlerLeavesAlone | apps/api/src/routes/stripe-webhook.ts:304-305 | an event about no order here changes nothing |
| OrderTables.ThrowsIff | packages/db/src/queries/orders.ts:201-256 | a delivery throws exactly for a malformed order id or intent; for an order open to its payment, also for an intent or session another order holds, text that is none, or a tax the column refuses; for one open to its chargeback, a reason too long |
| Webhook.StripeWebhook.Receive | apps/api/src/routes/stripe-webhook.ts:101-118 | undisturbed, the transaction's effect; 200 exactly when the event is claimed, by this delivery or an earlier one |
| Webhook.EveryOrderWasPaidOnce | packages/db/src/schema/market.ts:363-414 | in every run an order beyond created and cancelled was paid exactly once, no two orders share an intent or a session, no listing has two open orders, and a completed order was shipped with tracking |
| Webhook.PaidIff | packages/db/src/queries/orders.ts:201-256 | in every run an order carries an intent exactly when a payment by it committed while the order was created |
| Webhook.RefundedIff | packages/db/src/queries/orders.ts:546-568 | in every run an order ends refunded exactly when a full refund of its intent committed while it was in one of the five refundable states |
| Webhook.RefundFollowsPayment | apps/api/src/routes/stripe-webhook.ts:304-305 | and that refund committed after the payment of the same intent |
| Webhook.SoldIff | packages/db/src/queries/orders.ts:239-251 | in every run a listing is sold exactly when some order for it carries a payment's intent |
| Webhook.OpensIff | packages/db/src/schema/market.ts:376-383 | an order opens exactly when no other for its listing is still neither cancelled nor refunded |
| Webhook.OvertakingRefundIsLost | apps/api/src/routes/stripe-webhook.ts:304-305 | a refund delivered before its payment leaves the order paid |
| WebhookTransactions.StepKeepsOk | packages/db/src/queries/orders.ts:193-256 | under every step, what each open transaction has read under its lock or written under the indexes still agrees with the tables, and refusals stand |
| WebhookTransactions.EveryInterleavingIsSerial | apps/api/src/routes/stripe-webhook.ts:46-57 | every interleaving ends as a serial order of what committed, each delivery committing in its turn, with only deliveries that found no order moved from their place among the commits |
| WebhookTransactions.CommitOrderIff | apps/api/src/routes/stripe-webhook.ts:304-305 | a commit has the effect of the delivery made there and then exactly unless it missed an order it would now act on |
| WebhookTransactions.CommitOrderExplainsIff | apps/api/src/routes/stripe-webhook.ts:46-57 | the commits one after another give the tables at every point of a run exactly when no such commit is in it |
| WebhookTransactions.OvertakenByThePayment | apps/api/src/routes/stripe-webhook.ts:279-311 | a run with one: the refund looks up before the payment commits and commits after |
| WebhookTransactions.RefundsUnderEveryInterleaving | packages/db/src/queries/orders.ts:546-568 | which refunds count, in the serial order of every interleaving |
| WebhookTransactions.SoldUnderEveryInterleaving | packages/db/src/queries/orders.ts:239-251 | the same under every interleaving |
| WebhookTransactions.ExactlyOnce | packages/db/src/queries/webhooks.ts:28-40 | in every interleaving an event is claimed exactly when one delivery of it has committed, never two, and no second one is under way |
| WebhookTransactions.NeverDeadlocked | packages/db/src/queries/orders.ts:193-208 | while deliveries are open, one of them can go on or is about to throw |
| Payouts.OrderBook.CompleteDeliveredJob | packages/db/src/jobs.ts:153-178 | exactly the listed orders still delivered become completed; the rest are skipped and counted |
| Payouts.Platform.ReleasePayouts | apps/api/src/job-release-payouts.ts:62-98 | the accounts after the job, or after as much of it as a crash left, seller by seller |
| Payouts.ReleasedIsCounted | apps/api/src/job-release-payouts.ts:62-98 | the count it returns is of the listed sellers with three completed orders, the first a week ago, whose writes all went through |
| Payouts.ReleasedWhileManualIff | packages/db/src/queries/sellers.ts:105-150 | in every interleaving, with crashes and lost replies anywhere, a row says released while the schedule is manual exactly when its hold was never written |
| Payouts.CrashBeforeTheHold | apps/api/src/routes/seller.ts:219-247 | a run in which a request ends before it writes the hold |
| Payouts.AbandonedForEver | apps/api/src/routes/seller.ts:196-202 | such a seller stays so in the rest of every run, and no pass of the job ever takes them up |
| Payouts.JobReleasesIff | packages/db/src/queries/sellers.ts:221-246 | a job that gets through to a held seller releases them exactly when their orders, as read, meet the rule, whatever an interrupted job left; otherwise it leaves the account alone |
| Payouts.PassReleasesIff | apps/api/src/job-release-payouts.ts:62-98 | among everything else that happens, an undisturbed pass over any held account ends daily and released exactly when the orders meet the rule as they stand, and otherwise changes nothing |
| Payouts.InterruptedThenDisputed | packages/db/src/queries/sellers.ts:228-237 | a run in which an interrupted release is never finished: running payouts, a held row, and no pass that would release it |
| Payouts.ReleasedMeansShipped | packages/db/src/schema/market.ts:409-414 | whatever admins complete, a completed order was paid and shipped with tracking; running payouts, or a row released after its hold was written, mean three such orders |
| Payouts.ReleasedMeansEarned | packages/core/src/payouts.ts:63-77 | when admins complete only what was delivered a week before, they mean three orders paid, shipped and delivered, one of them a fortnight ago |
| Payouts.CopiesAreReachable | packages/core/src/orders.ts:91-149 | whatever can happen to an order can happen to three orders of a held seller, in step |
| Payouts.UndeliveredRelease | packages/core/src/orders.ts:140-146 | an admin who completes lost parcels can release a seller none of whose cards arrived |
| Payouts.EarnedIff | packages/core/src/payouts.ts:20-44 | every release (running payouts, or a row released after its hold was written) is earned, in every reachable state, exactly when no order that can come about is one an admin may complete before a week after its delivery |
| SigV4.UriEncode | packages/photos/src/sigv4.ts:47-69 | the loops over characters and bytes compute the encoding |
| SigV4.EncodedOneByOne | packages/photos/src/sigv4.ts:47-69 | each character stands for itself or for its UTF-8 in upper-case escapes, one after another |
| SigV4.DecodeEncoded | packages/photos/src/sigv4.ts:39-69 | percent-decoding gives back every string |
| SigV4.PlainIffUnreserved | packages/photos/src/sigv4.ts:39-69 | a text is its own encoding exactly when all of it is letters, digits, hyphen, underscore, full stop and tilde |
| SigV4.EncodedIsInert | packages/photos/src/sigv4.ts:39-69 | an encoded string holds no ampersand, equals sign or slash |
| SigV4.QueryIgnoresInsertionOrder | packages/photos/src/sigv4.ts:92-98 | parameters set in any order give the same canonical query |
| SigV4.QueryReadsBack | packages/photos/src/sigv4.ts:92-98 | the canonical query decodes to exactly the parameters, each once, by encoded key |
| SigV4.SegmentsAreThePath | packages/photos/src/sigv4.ts:196-199 | encoding segment by segment is encoding the whole with its slashes left alone |
| SigV4.PathReadsBack | packages/photos/src/sigv4.ts:196-199 | so the signed path decodes to the object's own |

## Left out

- Routing, pages, configuration, command-line entry points: no deep invariant.
- Row-level security, database roles and grants: the model starts from what a caller may reach.
- SHA-256, HMAC, AES, the image decoders and the network are parameters or choices of the environment.
- Normal quantile numerics and IEEE rounding: exact numbers stand in, as said above.
- Authorisation, step-up, session revocation and fraud thresholds: finite tables or single-branch checks.
- Collection valuation, run splitting, application fees and evidence links: true but easy.
- Signing as a whole, presigned URLs and their headers: only the encodings they are built from are modelled.
- Outlier flags, odds page texts, the quota decision and its headers, and the date shown for a hold: single-branch checks and formatting.
- The v2 webhook feed: it stores the answer of a fresh read of the account, which is not part of this model.
- The held-sellers query's limit of 200 and the completion job's limit of 200: a job here gets any list.
- `updateItem`, `removeItem` and listing of collections: single-row writes and reads.
- Photograph container formats other than JPEG and PNG, which the inspection refuses.
- PullLog.PullTable.LogPull: the limit of 2000 and "not after the end" are promised for undisturbed calls only, because the source reads them apart from the insert.
- PullLog.EveryReachableLogIsLinked: breaks that still hold rows from before the chain existed are not modelled.
- Pricing.SummaryExists: prices that are not whole numbers, which the source refuses with a type error, cannot be written down here.
- IdentifierLimit.KeyFor: lower case is that of ASCII letters, so other spellings of one address may count apart where the source's do not.
- CollectionCsv.HeaderAcceptedIff: lower case is that of ASCII letters; the column names are ASCII.
- CollectionImport.DefaultsMayBeLeftOut: speaks of files whose rows are as long as their header; a row of another length is reported with both lengths, and those differ when a column is left out.
- CollectionTransfer.ExportThenReplaceChangesNothing: letters outside ASCII keep their case in card keys.
- Sorting.SortByKey: strings compare by code point, which agrees with JavaScript's order on the ASCII keys sorted here.
- SigV4.DecodeEncoded: lone surrogates, which the source replaces by U+FFFD, are not strings here.
- WebhookTransactions.EveryInterleavingIsSerial: the requests of parties, admins and jobs are one step each, and waits on the listing's own row are not modelled.
- CollectionTransfer.Collection.UpsertItem: two concurrent adds to one line both read before either writes, and the second write drops the first purchase; the method is one undisturbed call.
