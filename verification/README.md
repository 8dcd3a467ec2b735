# A verified model of the bookstore's core

The project models the parts of a bookstore ERP that carry algorithms, exact
arithmetic or protocols, and proves what they keep.

- **CSV** (`Text`, `CsvSyntax`, `CsvReader`, `Rfc4180`, `CsvDelimiters`,
  `CsvWriter`, `CsvRoundTrip`, `CsvExports`). The reader's loops are methods proved
  against a token grammar; what it gives back of a written file is proved under
  the exact condition that it detects the delimiter; the exporter is a set of
  functions, and the two are proved to undo each other under an exact condition.
- **Money** (`Rounding`, `Decimals`, `MoneyAmounts`, `MoneyLaws`, `StockCosts`,
  `Discounts`). Amounts are integers of 1/10,000; discounts are integers of
  cents and of 1/10,000 percent.
- **Outbox** (`Outbox`, `OutboxRuns`, `OutboxPoints`, `OutboxFailures`,
  `OutboxDrain`, `OutboxPoller`, `PollTimer`, `OutboxProcess`). A state machine with a crash possible at every step and any
  number of pollers; the poller and the loyalty handler as imperative code shown
  to be runs of it; and a process that starts those pollers from its timer.
- **Transfers** (`Transfers`, `TransferRuns`, `TransferValues`, `TransferStock`,
  `TransferDesk`). A
  note with its lines and events, the shelves and the stock history; every
  operation is a transaction that succeeds as a whole or changes nothing, and
  between two of them anything else may move stock.
- **Sign-in** (`RateLimit`, `RateLimitBounds`, `RefreshTokens`). The limiter refined
  by a log of failures; refreshes as transactions with a read, a row lock and a
  commit that others can come between.
- **Staff** (`StaffRoles`, `StaffRaces`). Role changes by actors whose own roles may
  have changed since they were authenticated, first one at a time, then as
  transactions that read, wait for rows, commit or are undone.
- **Numbers** (`DocumentNumbers`, `Isbn`). Counter rows under concurrent
  transactions, printed numbers and their parser, check digits and the one
  number a book is stored under.
- **Streams** (`EventStreams`). The registry of open event streams.

Tables are maps and sequences, and a transaction is a step, or a few steps, that
commits or is undone. Clocks, fresh tokens and ids, configuration values and the
answers of other services are parameters of the steps.

Methods that carry out single assignments of the source (the counter rows, the
timer, one booking) are proved against the functions that specify them and are
not listed below; what is listed about them are the properties of those
functions over runs.

Where the code and its documentation disagree, the model follows the code:

- `README.md` line 234 calls the sign-in limiter a sliding window. It is a fixed
  one: `RateLimit.FixedMeetsSliding` says exactly when the two decide alike,
  `RateLimitBounds.WindowDoesNotSlide` gives a run that a sliding window would
  refuse, and `RateLimitBounds.SlidingBound` what a fixed one still guarantees.
- `apps/api/src/lib/documentNumber.ts` lines 9-10 say that a rolled-back
  transaction leaves a gap. The counter is written in that transaction, so it
  does not: `DocumentNumbers.NoGaps`.
- `apps/api/src/workers/loyaltyWorker.ts` line 4 calls the handler idempotent.
  It is with one poller and not with two: `OutboxRuns.OnceExactlyWithOnePoller`.
- `apps/api/src/lib/csvRead.ts` lines 65-68 say that a cell comes back as it was
  written. It does unless it began with an apostrophe before a formula
  character: `CsvRoundTrip.CellReadsBack`.
- `apps/api/src/lib/csvRead.ts` lines 1-3 promise the delimiter of the header
  line. A header with as many bare commas as semicolons is cut at the commas:
  `CsvDelimiters.FileIsRead` says when the delimiter is right.
- `apps/api/src/modules/staff/staff.service.ts` lines 14-16 say that a change
  checks the account as it is now, and `staff.repository.ts` lines 128-131 that
  two changes at once cannot take away the last Super_Admin. The roles are those
  from before the wait for the account's row: `StaffRaces.ARoleChangeOverlooks`
  is a run that leaves none, `StaffRaces.ASuperAdminStays` the condition under
  which one stays.

## Model

| member | source | states |
|---|---|---|
| CsvSyntax.LexIsLossless | apps/api/src/lib/csvRead.ts:45-59 | The tokens of a text, quoted or not, written out in order are the text: reading skips and invents no character. |
| CsvSyntax.LineNumbers | apps/api/src/lib/csvRead.ts:37-58 | The line given to the k-th row is 1 plus the line feeds before the row and the row ends before it written as a lone carriage return; the row starts right after the k-th row end. |
| CsvSyntax.BlankIsWhite | apps/api/src/lib/csvRead.ts:42-42 | A row is dropped as blank exactly when every character of every cell is white space. |
| CsvSyntax.FileLinesIncrease | apps/api/src/lib/csvRead.ts:40-62 | The data rows of a file carry strictly increasing lines and none of them is blank. |
| CsvReader.DelimiterOf | apps/api/src/lib/csvRead.ts:17-28 | The counting loop with its toggled quote flag picks the delimiter under which the grammar cuts the header line into more cells, the comma on a tie. |
| CsvReader.ScannedIsTotal | apps/api/src/lib/csvRead.ts:39-60 | Taking tokens one by one with a cell and a row in progress records what the grammar gives when it groups the same tokens into rows and drops the blank ones. |
| CsvReader.ScanRecords | apps/api/src/lib/csvRead.ts:33-60 | The index loop over the text, for any input however malformed, records the non-blank rows of the grammar, the last one without a row end included. |
| CsvReader.ReadCsv | apps/api/src/lib/csvRead.ts:30-63 | The whole reader, mark removed and delimiter detected, gives exactly the meaning of the text in the grammar. |
| CsvDelimiters.FileIsRead | apps/api/src/lib/csvRead.ts:30-63 | The whole reader on a file of section 2 of RFC 4180, written with a comma or a semicolon, any choice of quoting, any one kind of line end, a byte-order mark or none: the records that are not blank come back, each on its line, under the delimiter they were written with, if and only if the first record has more fields than bare other delimiters (for the semicolon: more than one above them). Otherwise the header or the rows differ too, unless no record is divided by either delimiter. |
| CsvDelimiters.WrittenDelimiter | apps/api/src/lib/csvRead.ts:17-28 | How many cells each delimiter cuts the first record of such a file into, and so exactly when the one it was written with is detected. |
| CsvDelimiters.AnUnquotedComma | apps/api/src/lib/csvRead.ts:1-3 | Fields parted by a semicolon, one of them holding a bare comma, are read as parted by the comma: a tie. |
| CsvDelimiters.RowsParted | apps/api/src/lib/csvRead.ts:41-58 | Under either delimiter a text has as many rows, on the same lines; a row is one cell, the same under both, or its first cell under one of them goes on, with that delimiter, under the other. |
| CsvDelimiters.LexSwapped | apps/api/src/lib/csvRead.ts:52-52 | Reading a text with the other delimiter gives the same tokens with the two delimiters exchanged outside quotes. |
| Rfc4180.ReadsWhatIsWritten | apps/api/src/lib/csvRead.ts:33-60 | Under the delimiter it was written with, the grammar gives back every record of a file of section 2 of RFC 4180, blank ones too, each on the line where it starts, for any choice of quoting and any one kind of line end. |
| Rfc4180.LexFile | apps/api/src/lib/csvRead.ts:45-59 | Such a file is cut into the tokens of its records, even where a lone carriage return stands before the next record. |
| Rfc4180.FileRows | apps/api/src/lib/csvRead.ts:36-60 | Those tokens group into the records, with lines that count line feeds inside quoted fields. |
| CsvRoundTrip.WrittenIsFile | apps/api/src/lib/csvBuilder.ts:243-303 | What the exporter writes is always a well-formed RFC 4180 file: the headers, and under them the printed values, nothing for null. No field of a free-text column starts with an equals, plus, minus or at sign: it is the value, or an apostrophe and the value, the second exactly when the value starts with one of the four. Fields of other columns and headers are the value itself. |
| CsvRoundTrip.SwappedRows | apps/api/src/lib/csvRead.ts:41-52 | The semicolon cuts a text into as many rows as the comma; a row with text under the semicolon has text under the comma or several cells there, and a row of several cells under the comma has text under the semicolon. |
| CsvRoundTrip.ReadWritten | apps/api/src/lib/csvRead.ts:30-63 | An exported file is read with the comma, as written, when its first line has fewer bare semicolons than cells; otherwise with the semicolon, into a wider first line. |
| CsvRoundTrip.RoundTrip | apps/api/src/lib/csvBuilder.ts:292-312 | Reading back a file sent with its byte-order mark gives the trimmed headers and exactly the non-blank rows in order, if and only if the header line has text and fewer semicolons outside quotes than columns, or there is no column. |
| CsvRoundTrip.CellReadsBack | apps/api/src/lib/csvRead.ts:65-72 | A cell as read, apostrophe taken off, is the original trimmed, if and only if the trimmed original does not itself start with an apostrophe before an equals, plus, minus or at sign, a tab or a carriage return; then it loses that apostrophe. |
| CsvExports.RowsReadBack | apps/api/src/lib/csvBuilder.ts:277-303 | The kept rows, each cell through cellText, are the original rows that are not blank, trimmed, if and only if none of their values looks guarded; blankness is that of the value, not of the guarded cell. |
| CsvExports.ExportReadsBack | apps/api/src/lib/csvRead.ts:30-72 | A whole file sent, read and put through cellText gives the trimmed headers and exactly the non-blank rows of trimmed values in order, if and only if its header line is read right (see RoundTrip) and no value of those rows looks guarded itself. |
| Rounding.DivRoundIsNearest | packages/shared/src/money.ts:17-25 | The rounded quotient is the one nearest integer, ties away from zero: no other integer is that, for any signs. |
| Rounding.DivRoundOdd | packages/shared/src/money.ts:17-25 | Rounding is odd in the dividend and in the divisor. |
| Rounding.DivRoundMonotone | packages/shared/src/money.ts:17-25 | Rounding keeps order for a positive divisor. |
| Rounding.DivRoundScales | packages/shared/src/money.ts:17-25 | Scaling dividend and divisor by a positive factor does not change the result. |
| Rounding.DivRoundError | packages/shared/src/money.ts:17-25 | Times the divisor, the result misses the dividend by at most half the divisor. |
| Decimals.PadIsPadded | packages/shared/src/money.ts:151-151 | A padded number is digits that read as the number, at least the asked width, without needless zeros. |
| Decimals.PaddedUnique | packages/shared/src/money.ts:151-151 | A number has only one such form. |
| MoneyLaws.PrintedForm | packages/shared/src/money.ts:148-155 | The printed text is a sign, the digits of the amount in its last place, and that many after the point, amounts below one unit included. |
| MoneyLaws.PrintedReads | packages/shared/src/money.ts:27-35 | A printed text reads as its signed digits scaled to ten-thousandths. |
| MoneyLaws.RoundTrip | packages/shared/src/money.ts:148-155 | Reading the print with d decimals gives the amount rounded to d places, for d from 0 to 4 and every amount. |
| MoneyLaws.ExactRoundTrip | packages/shared/src/money.ts:148-155 | With four decimals the amount itself comes back. |
| MoneyLaws.PrintsBack | packages/shared/src/money.ts:27-35 | A text reads and prints back as itself if and only if it is canonical: no plus, no white space, no needless zero, no minus zero, d decimals. |
| MoneyLaws.RoundingLaws | packages/shared/src/money.ts:96-101 | Rounding to places is idempotent, keeps order and moves an amount by at most half a step. |
| MoneyLaws.TimesWhole | packages/shared/src/money.ts:78-82 | Multiplying by an integer is exact and distributes over addition. |
| MoneyLaws.DivideThenMultiply | packages/shared/src/money.ts:84-88 | Dividing by an integer q and multiplying by q again misses the amount by at most |q| halves of a ten-thousandth, for every q but zero, the only one that throws. |
| MoneyAmounts.Sum | packages/shared/src/money.ts:64-68 | The accumulating loop gives the total of the amounts, or throws if and only if one of them cannot be read. |
| MoneyAmounts.SumIgnoresOrder | packages/shared/src/money.ts:64-68 | The total of amounts does not depend on their order. |
| MoneyLaws.SumOfRounded | packages/shared/src/money.ts:97-101 | Rounding n amounts to cents moves their sum by at most n half cents. |
| MoneyLaws.RoundedSumError | packages/shared/src/money.ts:97-101 | The sum of n amounts rounded to cents differs from the rounded sum by at most n + 1 half cents. |
| MoneyLaws.ResultsAreNearest | packages/shared/src/money.ts:78-93 | Multiplying, dividing and taking a percentage, by any operand that can be read, give the exact result rounded once to the nearest amount, halves away from zero; only zero does not divide. |
| MoneyLaws.RoundIsNearest | packages/shared/src/money.ts:96-101 | Rounding to 0 to 4 places, and to no other number, gives the nearest multiple of that place, halves away from zero. |
| MoneyLaws.DecimalReads | packages/shared/src/money.ts:27-35 | A text is read exactly when it is, trimmed, a sign or none, digits, and digits after a point or none; and as the nearest amount, however many digits there are. |
| StockCosts.AverageIs | apps/api/src/modules/inventory/inventory.policy.ts:85-88 | The average computed in three rounded steps is the weighted mean rounded once; an empty shelf, or one below zero, takes the cost that arrives. |
| StockCosts.AverageBetween | apps/api/src/modules/inventory/inventory.policy.ts:85-88 | The new average lies between the cost on hand and the cost that arrives, and values the copies of a stocked shelf within half a ten-thousandth each of what they cost. |
| StockCosts.ShareKeepsValid | apps/api/src/modules/inventory/inventory.policy.ts:95-101 | A share is refused exactly when too few copies are damaged; otherwise it is a part of the value in whole cents and what stays is a valid value. |
| StockCosts.DamagedValueConserved | apps/api/src/modules/inventory/inventory.service.ts:176-204 | Over any run of copies coming in at a cost and leaving, refused ones included, copies and value are what was there and came in less what left, the value stays whole cents and not negative, and when no copy is left all that came in has left. |
| Discounts.LosslessIff | apps/api/src/lib/discount.ts:72-88 | Scaling whole numbers from one range to another and back with half-up rounding loses nothing if and only if the first range is not larger. |
| Discounts.AmountsSurvive | apps/api/src/lib/discount.ts:72-88 | Every cent amount up to the line value survives the way through a percentage of four decimals and back, if and only if the line is worth at most 10,000.00. |
| Discounts.PercentagesSurvive | apps/api/src/lib/discount.ts:72-88 | Every percentage of four decimals survives the way through a cent amount and back, if and only if the line is worth at least 10,000.00. |
| Discounts.ResolveAccepts | apps/api/src/lib/discount.ts:103-130 | With its tolerance of a tenth of a cent, the check refuses exactly an amount above the line value; both fields are in range otherwise. On a negative line value it accepts exactly the percentages that round to all of it. |
| Discounts.ResolveGives | apps/api/src/lib/discount.ts:103-130 | Mode and type are those given. In its own mode the discount is what was asked for, nothing if below zero and at most the whole as a percentage; in the other it is the one integer nearest to it, halves upwards: the amount of that percentage of the line, or the percentage the amount is of a positive line. A refusal names that amount and the value of the line. |
| Discounts.ResolveTwice | apps/api/src/lib/discount.ts:103-130 | Up to 10,000.00, resolving the percentage that an amount resolved to gives the same two fields. |
| Discounts.CapOnAmounts | apps/api/src/lib/discount.ts:132-144 | In terms of the amount, the cap on the percentage lets through what is less than half a ten-thousandth of a percent above it, and nothing more. |
| OutboxRuns.StepKeepsValid | apps/api/src/workers/outboxPoller.ts:74-139 | Every step, crashes included, keeps the invariant of tables and pollers: rows held apart, statuses not yet committed only on rows passed, published events handled. |
| OutboxRuns.RunIsHonest | apps/api/src/workers/outboxPoller.ts:74-139 | In every reachable state no two pollers hold one row, a published event that has a handler had it return, and a handler that reported an accrual, new or already there, left its row. |
| OutboxRuns.SettledIsFinal | apps/api/src/workers/outboxPoller.ts:94-126 | Published and failed are final over any run. |
| OutboxRuns.AccruedAtMostOnce | apps/api/src/workers/loyaltyWorker.ts:16-86 | Wherever the process crashes, also between the commit of the handler and the commit of the poller, no sale is accrued twice, with one poller or with events that name different sales. |
| OutboxRuns.AccruedExactlyOnce | apps/api/src/workers/loyaltyWorker.ts:24-72 | Under the same condition an event whose handler reported an accrual has exactly one accrual row of its customer and sale. |
| OutboxRuns.DoubleAccrualRuns | apps/api/src/workers/loyaltyWorker.ts:24-50 | With two pollers two events of one sale can both accrue: both check before either locks the account. |
| OutboxRuns.OnceExactlyWithOnePoller | apps/api/src/workers/loyaltyWorker.ts:24-50 | No run accrues a sale twice, if and only if there is at most one poller. |
| OutboxPoints.AccrualsAreEarned | apps/api/src/workers/loyaltyWorker.ts:24-65 | Over any run every accrual of a sale was written after its handler looked at an event of that sale, with some rate and minimum: its points are the whole part of subtotal times rate, at least one, and the subtotal reaches the minimum. |
| OutboxPoints.LookDecides | apps/api/src/workers/loyaltyWorker.ts:20-40 | A look at a complete event goes no further if the history has an accrual of that customer and sale; otherwise it goes on to add points exactly when the event is complete, its subtotal reaches the minimum and is worth a point. In every other case the event is done with and nothing else changes. |
| OutboxFailures.OnlyThrownFail | apps/api/src/workers/outboxPoller.ts:95-130 | Over any run, crashes included, an event ends as failed only if its handler threw. |
| OutboxFailures.CommitSettles | apps/api/src/workers/outboxPoller.ts:120-139 | A commit settles exactly the rows of its poller, each as it was marked, and no other row. |
| OutboxRuns.StepKeepsBooks | apps/api/src/modules/customer/customer.repository.ts:237-260 | Every step, the entries of other writers included, keeps accounts in agreement with the history. |
| OutboxRuns.BalancesMatchHistory | apps/api/src/workers/loyaltyWorker.ts:57-68 | In every reachable state each balance is the sum of its history and each lifetime total the sum of what was earned. |
| OutboxPoller.Process.HandleLoyaltyAccrual | apps/api/src/workers/loyaltyWorker.ts:16-86 | The handler as written, failing or cut short anywhere, is a run of steps of the state machine that leaves its poller past the row, which will be published if it returned and failed if it threw, or leaves nothing but a crash. |
| OutboxPoller.Process.AddPoints | apps/api/src/workers/loyaltyWorker.ts:42-86 | The transaction of the handler changes the account and the history together or neither, and can throw after its commit. |
| OutboxPoller.Process.PollOnce | apps/api/src/workers/outboxPoller.ts:74-139 | The polling loop is a run of steps; a poll that commits leaves pending exactly the events after the first fifty pending ones, and one that does not leaves all statuses. |
| OutboxPoller.Process.PollRepeatedly | apps/api/src/workers/outboxPoller.ts:146-157 | Poll after poll, some of which may fail, c committed ones leave exactly the events after the first 50 c pending ones; none is left if and only if 50 c is at least their number. |
| OutboxDrain.SettledPending | apps/api/src/workers/outboxPoller.ts:94-130 | Settling the first k pending rows leaves the others pending, in order. |
| OutboxDrain.PollsToDrain | apps/api/src/workers/outboxPoller.ts:74-139 | Over any run of one poller with no new event, whatever throws or crashes, c commits leave exactly the events after the first 50 c pending ones, so they are drained if and only if 50 c is at least their number. |
| OutboxDrain.PollersShareTheEvents | apps/api/src/workers/outboxPoller.ts:79-87 | Over any run of any number of pollers with no new event, the pending events shrink by exactly the batches committed, no event is in two of them, and draining n events takes at least n / 50 commits. |
| PollTimer.StepKeepsOneAtATime | apps/api/src/workers/outboxPoller.ts:141-169 | A step keeps polls of one process from overlapping, if and only if it is not a start while a poll of before the last stop is going on. |
| PollTimer.PollsNeverOverlap | apps/api/src/workers/outboxPoller.ts:141-169 | Over any run without such a start at most one poll is going on. |
| PollTimer.OverlapIsReached | apps/api/src/workers/outboxPoller.ts:141-169 | A poller stopped during its first poll and started again, from the state the process boots in, has two polls going on. |
| OutboxProcess.OneProcessAccruesOnce | apps/api/src/workers/outboxPoller.ts:141-169 | One process, with its timer and with a poller for each poll going on, stopped, started, killed and booted as often as you like but never started too soon: at most one poller is busy and no sale is accrued twice. |
| OutboxProcess.EarlyRestartAccruesTwice | apps/api/src/workers/outboxPoller.ts:141-169 | Started too soon, that same process has a run, from its boot, in which a sale is accrued twice. |
| TransferRuns.CreateValid | apps/api/src/modules/transfers/transfers.service.ts:78-96 | A note that is created satisfies the invariant against the shelves it found. |
| TransferRuns.UpdateKeepsValid | apps/api/src/modules/transfers/transfers.service.ts:98-110 | Replacing a draft keeps the invariant. |
| TransferRuns.DispatchAccepts | apps/api/src/modules/transfers/transfers.service.ts:130-150 | A draft is dispatched if and only if its sending branch asks through someone who may use the source location and the shelf has enough of every book of the note. |
| TransferRuns.DispatchKeepsValid | apps/api/src/modules/transfers/transfers.service.ts:130-150 | Dispatch keeps the invariant: every line costed, its movement in the history, every count still zero. |
| TransferStock.DispatchedAtAverage | apps/api/src/modules/transfers/transfers.service.ts:125-162 | An accepted dispatch costs each line at the average its book has on the source shelf, takes its copies off that shelf, and changes no average cost, no damaged copies and no other shelf; it writes one movement for each line. |
| TransferStock.CostsOfTheDispatch | apps/api/src/modules/transfers/transfers.service.ts:125-162 | In every run, whatever else moves stock: the copies and costs of a note that was dispatched are those of its draft at the dispatch step, each cost the average its book then had on the source shelf. |
| TransferRuns.SentInBookOrder | apps/api/src/modules/transfers/transfers.service.ts:137-139 | Lines leave sorted by book, the same lines and no others, so notes that share a shelf lock its rows in one order. |
| TransferRuns.ReceiveAccepts | apps/api/src/modules/transfers/transfers.service.ts:191-222 | A receipt is booked if and only if it comes from the receiving branch, the note is on its way, the location is one of that branch the actor may use, and each item by itself fits what is on the way: several items never get in each other's way. |
| TransferRuns.ReceiveKeepsValid | apps/api/src/modules/transfers/transfers.service.ts:191-222 | A receipt keeps the invariant and strictly lowers the number of copies on the way. |
| TransferStock.ReceivedAtCost | apps/api/src/modules/transfers/transfers.service.ts:187-222 | A receipt puts the copies of each item on the shelf of its book at its location, at the cost their line left at, weighed into the average to the nearest; damaged copies and every other shelf stay as they were, and each item is one event and one movement. |
| TransferRuns.ResolveKeepsValid | apps/api/src/modules/transfers/transfers.service.ts:230-265 | A resolution keeps the invariant and strictly lowers the number of copies on the way. |
| TransferStock.ResolveAccepts | apps/api/src/modules/transfers/transfers.service.ts:224-265 | A resolution is accepted exactly when it is well formed and comes from the branch concerned, sender for returned copies and receiver for others, for a line with that many copies on the way, and into a location of that branch the actor may use unless the copies are lost. |
| TransferStock.ResolvedAtCost | apps/api/src/modules/transfers/transfers.service.ts:224-265 | Damaged copies are counted with the damaged ones of the receiver, returned ones weighed into a shelf of the sender, both at the cost their line left at, and lost ones are nowhere; no other shelf changes, and it is one event of the line. |
| TransferRuns.WhoActsWhen | apps/api/src/modules/transfers/transfers.service.ts:99-265 | Drafts are edited, cancelled and dispatched by their sender alone; what is on the way is received by the receiver and resolved by it, or by the sender for copies that came back; the branches of a note never change but by editing a draft. |
| TransferRuns.DraftIsTheRequest | apps/api/src/modules/transfers/transfers.service.ts:65-110 | A note is created, or a draft replaced, exactly when its request may be made, and is then the request line by line, without moving stock. |
| TransferRuns.ValidObeysRules | apps/api/src/db/checks/rules.ts:299-368 | The invariant implies the three consistency rules of transfers and the conservation of copies. |
| TransferRuns.RulesHoldAlways | apps/api/src/db/checks/rules.ts:299-368 | Whatever is done to a created note, by whomever, in whatever order and with branches, locations and books as they are at each moment, and whatever else moves stock in between: the three rules hold, no copy appears or vanishes, and each shelf holds what it held, what others put there and what the history of the note says. |
| TransferRuns.EndedForGood | apps/api/src/modules/transfers/transfers.policy.ts:40-55 | A note that is received, closed or cancelled, and its stock history, stay as they are over any later run. |
| TransferRuns.EndsWhenNothingIsOnTheWay | apps/api/src/modules/transfers/transfers.policy.ts:57-73 | A dispatched note is over if and only if nothing is on the way, Received exactly when every copy arrived and Closed exactly when some were resolved. |
| TransferValues.InTransitValueIs | apps/api/src/modules/transfers/transfers.policy.ts:85-88 | In every run the rounded value in transit is within half a cent of what was sent minus every receipt and resolution at the cost its line left at, and zero for a draft and for a note that ended. |
| TransferValues.SentIsSettled | apps/api/src/modules/transfers/transfers.service.ts:136-150 | No step after dispatch changes the copies a line sent or the cost it left at. |
| TransferDesk.Desk.DispatchNote | apps/api/src/modules/transfers/transfers.service.ts:130-162 | The dispatch loop over the tables gives the state of the specification, and puts everything back when a shelf is too short. |
| TransferDesk.Desk.ReceiveNote | apps/api/src/modules/transfers/transfers.service.ts:191-222 | The receiving loop gives the state of the specification, and puts everything back when an item is refused. |
| TransferDesk.Desk.BookItem | apps/api/src/modules/transfers/transfers.service.ts:199-216 | One item is booked with stock, history, count and event together, or refused with nothing changed. |
| RateLimit.RetryAfter | apps/api/src/middleware/rateLimit.ts:46-49 | The announced wait is the least number of whole seconds that covers the rest of the window. |
| RateLimit.LoginLimiter.Begin | apps/api/src/middleware/rateLimit.ts:42-51 | A request is refused exactly when the store refuses its key, with the wait, and changes nothing. |
| RateLimit.LoginLimiter.Finish | apps/api/src/middleware/rateLimit.ts:52-61 | An answer changes the store exactly as counting one failure of its key does. |
| RateLimit.LoginLimiter.Sweep | apps/api/src/middleware/rateLimit.ts:16-22 | The deleting loop leaves exactly the entries whose window is not over, untouched. |
| RateLimit.LimiterRefinesLog | apps/api/src/middleware/rateLimit.ts:39-63 | Over any run in time order with sweeps at any moments, a request is refused if and only if the log of counted failures of its own key says so. |
| RateLimit.SweepsAndOtherKeysAreInvisible | apps/api/src/middleware/rateLimit.ts:16-22 | Decisions are the same in the run without its sweeps, and in the run of the one key alone. |
| RateLimit.RefusedOnlyAfterTen | apps/api/src/middleware/rateLimit.ts:25-40 | Whoever is refused has at least ten counted failures in the last fifteen minutes. |
| RateLimit.FixedMeetsSliding | apps/api/src/middleware/rateLimit.ts:1-5 | A decision is the one a sliding window would take, if and only if there are fewer than ten failures, or the tenth latest is older than fifteen minutes, or it is not before the opening of the last window and that window is still open. |
| RateLimitBounds.SlidingBound | apps/api/src/middleware/rateLimit.ts:39-61 | With at most n failures in each window, no fifteen minutes hold more than 2n - 1. |
| RateLimitBounds.SlidingBoundIsReached | apps/api/src/middleware/rateLimit.ts:39-61 | For every n some log reaches that bound. |
| RateLimitBounds.CounterBound | apps/api/src/middleware/rateLimit.ts:42-62 | With at most k requests of a key in flight together its counter never passes 9 + k, and no fifteen minutes hold more than 17 + 2k of its failures. |
| RateLimitBounds.EveryLogHasARun | apps/api/src/middleware/rateLimit.ts:42-62 | Failures in order, at most ten in each window, are the log of some run of requests one at a time, each let through. |
| RateLimitBounds.BoundsAreReached | apps/api/src/middleware/rateLimit.ts:42-62 | For every k some run with at most k requests of a key in flight together takes its counter to 9 + k and fifteen minutes to 17 + 2k failures, which are the bounds. |
| RateLimitBounds.WindowDoesNotSlide | apps/api/src/middleware/rateLimit.ts:1-5 | Some run of requests one at a time has eighteen failures in the last fifteen minutes, and the next is let through. |
| DocumentNumbers.StepKeepsValid | apps/api/src/lib/documentNumber.ts:12-34 | Every step of interleaved transactions keeps rows locked by one of them and numbers taken above everything committed. |
| DocumentNumbers.CommittedNumbersIncrease | apps/api/src/db/checks/rules.ts:517-545 | Over any interleaving of transactions that commit or roll back, the committed numbers of a series and period increase strictly and never pass their counter. |
| DocumentNumbers.RaisedForGood | apps/api/src/lib/documentNumber.ts:36-46 | After a committed raise every number of that series committed later exceeds the bound, whatever ran in between. |
| DocumentNumbers.RaisedToTheGreater | apps/api/src/lib/documentNumber.ts:36-46 | A raise moves a counter to the greater of itself and the bound, touches no other counter, and the next number its transaction takes is the one after. |
| DocumentNumbers.NoGaps | apps/api/src/lib/documentNumber.ts:4-20 | The committed numbers of a series that is never raised are 1, 2, 3 and so on up to its counter: a rolled-back transaction leaves no gap. |
| DocumentNumbers.PrintedParses | apps/api/src/db/checks/rules.ts:24-47 | A printed daily number reads back as its day and value, also above 9999. |
| DocumentNumbers.ParsesExactly | apps/api/src/db/checks/rules.ts:42-47 | A text parses exactly when it is the series, eight digits and at least one more, with dashes between. |
| DocumentNumbers.ParsedPrints | apps/api/src/db/checks/rules.ts:42-47 | A text that parses is the printed form of what it parses as, if and only if its number is padded to four digits and no further. |
| DocumentNumbers.PrintedInOneSeries | apps/api/src/db/checks/rules.ts:24-47 | A printed daily number parses under no other series: names of series have no dash. |
| DocumentNumbers.PrintedUnique | apps/api/src/lib/documentNumber.ts:19-19 | Different numbers of a series are printed differently. |
| RefreshTokens.StepKeepsValid | apps/api/src/modules/auth/auth.service.ts:168-195 | Every step of concurrent refreshes, sign-ins and endings keeps the invariant: one unused token a session, one holder of a row, every finished refresh accounted for by the tables. |
| RefreshTokens.OneUnusedToken | apps/api/src/modules/auth/auth.service.ts:188-193 | In every reachable state each session has exactly one unused refresh token, its newest. |
| RefreshTokens.OneExchangePerToken | apps/api/src/modules/auth/auth.policy.ts:38-48 | Of all refreshes that present one token at most one exchanges it, and any other that succeeds began no more than thirty seconds after that one. |
| RefreshTokens.StaleTokensNeverWork | apps/api/src/modules/auth/auth.policy.ts:38-48 | A token presented more than thirty seconds after it was replaced never works, and unless its session is over, expired or its account off, presenting it ends the session. |
| RefreshTokens.NothingAfterEightHours | apps/api/src/modules/auth/auth.policy.ts:5-6 | No refresh succeeds from eight hours after signing in, nor for an account that was off. |
| RefreshTokens.NothingAfterTheEnd | apps/api/src/modules/auth/auth.repository.ts:149-157 | Once a session has ended, by whatever step, no refresh that begins later succeeds in it, over any run. |
| RefreshTokens.StepEndsSession | apps/api/src/modules/auth/auth.repository.ts:136-157 | What one step does to a session: it ends, at the time of the step, exactly by signing out of it, by ending the sessions of its staff member but another one, or by a refresh, let in, with a token of it replaced more than thirty seconds before; nothing else of it changes. |
| RefreshTokens.EndedBySomeStep | apps/api/src/modules/auth/auth.repository.ts:136-157 | Over any run an open session has ended exactly when one of its steps was such a one; whose it is and until when never changes. |
| RefreshTokens.SignedIn | apps/api/src/modules/auth/auth.service.ts:128-143 | Signing in opens one session of the staff member for exactly eight hours with one unused token, and touches nothing else. |
| RefreshTokens.ALateExchange | apps/api/src/modules/auth/auth.service.ts:168-195 | One that began before the end can still exchange its token after it. |
| RefreshTokens.RefreshAnswers | apps/api/src/modules/auth/auth.policy.ts:38-48 | A refresh that meets no other: which of the four answers it gets, as an if and only if for each; only an exchange changes tokens and only the reuse answer changes sessions. |
| RefreshTokens.TokensAreSignInsAndExchanges | apps/api/src/modules/auth/auth.service.ts:186-194 | There are as many refresh tokens as sign-ins and exchanges: the grace period issues none. |
| StaffRoles.RankOf | packages/shared/src/staff.ts:24-27 | The rank is the highest among the roles, -1 for none. |
| StaffRoles.GrantableAre | packages/shared/src/staff.ts:29-34 | Super_Admins grant every role, Admins those below Admin, Managers those that administer nobody, others none. |
| StaffRoles.ManagesExactly | apps/api/src/modules/staff/staff.policy.ts:20-60 | Who manages whom, role by role: nobody themselves; a Super_Admin everyone; an Admin those who are neither, all of whose roles are in branches where the actor is Admin unless the actor has all branches; a Manager those who administer nobody and have a role in the branch of the session. |
| StaffRoles.ViewsExactly | apps/api/src/modules/staff/staff.policy.ts:20-47 | Whose accounts are shown, role by role, one's own always and accounts without roles to Admins. |
| StaffRoles.ChangesExactly | apps/api/src/modules/staff/staff.policy.ts:83-95 | Which roles an actor may give or take, role by role and branch by branch. |
| StaffRoles.RolesInBranch | apps/api/src/modules/auth/auth.policy.ts:16-25 | The roles in effect in a branch are those held there, and those held elsewhere exactly with access to all branches and none there. |
| StaffRoles.ManagedIsVisible | apps/api/src/modules/staff/staff.policy.ts:41-60 | Who may manage an account can see it. |
| StaffRoles.ChangeStaysInBounds | apps/api/src/modules/staff/staff.service.ts:124-154 | A change that goes through touches one account, not the own one of the actor, of lower rank or both at the top; the roles given and taken are grantable ones in branches the actor manages; only a Super_Admin changes all-branch access. |
| StaffRoles.ChangeDoes | apps/api/src/modules/staff/staff.service.ts:124-181 | A change of an account goes through exactly when the actor has a role its route asks for, manages the account, may give and take those roles, and does not take the last active Super_Admin; roles, activity and all-branch access are then just as asked for. |
| StaffRoles.CreationDoes | apps/api/src/modules/staff/staff.service.ts:89-108 | An account is opened exactly by an actor who may give all its roles, at least one if a Manager, and all-branch access only as a Super_Admin; it is active, with just those. |
| StaffRoles.RanksNeverRise | packages/shared/src/staff.ts:29-34 | Over any run of requests, authenticated at any earlier moment, no rank above the highest at the start ever appears. |
| StaffRoles.WithoutSuperAdmin | packages/shared/src/staff.ts:29-34 | Without a Super_Admin at the start none ever appears, nobody newly becomes Admin in any branch, and all-branch access stays as it was. |
| StaffRoles.ASuperAdminStays | apps/api/src/modules/staff/staff.service.ts:61-66 | Of changes that do not overlap, by actors authenticated at any earlier moment, none takes the last active Super_Admin away. |
| StaffRoles.OnlyRacesMeetTheLastSuperAdmin | apps/api/src/modules/staff/staff.policy.ts:115-118 | An actor who still is what the request was authenticated as is never refused because of the last Super_Admin: managing one already takes another. |
| StaffRoles.ARaceMeetsIt | apps/api/src/modules/staff/staff.service.ts:133-137 | Two Super_Admins who take each other's role in a race: the second is refused. |
| StaffRaces.StepKeepsValid | apps/api/src/modules/staff/staff.repository.ts:74-80 | Every step of overlapping changes, each of which reads roles, waits for the row of its account, then for those of the other Super_Admins, commits or is undone, keeps the invariant: no row locked twice, later counts wait for earlier ones, and each counts on a Super_Admin that no change before it can take; unless a wait ends that overlooks a Super_Admin. |
| StaffRaces.ASuperAdminStays | apps/api/src/modules/staff/staff.repository.ts:128-144 | However changes overlap, a company with an active Super_Admin keeps one, as long as no change that waited goes through unchecked, for the roles it read before, and takes a Super_Admin away. |
| StaffRaces.FreshReadingsKeepOne | apps/api/src/modules/staff/staff.service.ts:35-40 | So it is over every run in which each wait ends with the Super_Admin assignments of the account as they were read. |
| StaffRaces.FreshReading | apps/api/src/modules/staff/staff.service.ts:124-137 | Only a change that read other Super_Admin assignments than its account has by then overlooks one. |
| StaffRaces.UncheckedTakesTheLast | apps/api/src/modules/staff/staff.service.ts:133-141 | A change that goes through without the check leaves no active Super_Admin, if and only if it overlooked one and there is no other. |
| StaffRaces.ADeactivationOverlooks | apps/api/src/modules/staff/staff.service.ts:157-171 | Some run leaves no active Super_Admin: a deactivation that read the roles before its account was given the role. |
| StaffRaces.ARoleChangeOverlooks | apps/api/src/modules/staff/staff.service.ts:124-143 | Another: two changes of one account, each leaving an assignment as Super_Admin in another branch, the second reading the roles while the first holds the row. |
| StaffRaces.AloneIsApply | apps/api/src/modules/staff/staff.service.ts:119-181 | A transaction that meets no other has the outcome of the change made in one step, refusals included. |
| StaffRaces.RanksNeverRise | packages/shared/src/staff.ts:29-34 | However changes overlap, no rank above the highest at the start ever appears. |
| StaffRaces.WithoutSuperAdmin | packages/shared/src/staff.ts:29-34 | However changes overlap, without a Super_Admin at the start none ever appears, nobody newly becomes Admin, and all-branch access stays as it was. |
| Isbn.Standard13 | apps/web/src/lib/isbn.ts:8-10 | Thirteen digits are valid exactly when those of the even places and three times those of the odd places add up to a multiple of ten, written over the places. |
| Isbn.Standard10 | apps/web/src/lib/isbn.ts:11-13 | Nine digits and a digit or an X are valid exactly when they add up to a multiple of eleven, weighted by ten down to one, an X as ten, written over the places. |
| Isbn.ValidHasShape | apps/web/src/lib/isbn.ts:6-15 | Nothing of another shape is valid. |
| Isbn.TypedAnyWay | apps/web/src/lib/isbn.ts:7-7 | Dashes and white space anywhere, and a small x for a large one, make no difference; no digit is dropped. |
| Isbn.OneChangeIsCaught | apps/web/src/lib/isbn.ts:6-15 | One character of a valid typed ISBN replaced by any other leaves a valid one, if and only if the number without dashes and spaces is still the same. |
| Isbn.Swap10IsCaught | apps/web/src/lib/isbn.ts:11-13 | Two different characters of a valid ISBN-10 in each other's place are always caught. |
| Isbn.Swap13IsCaughtUnless | apps/web/src/lib/isbn.ts:8-10 | Two digits of a valid ISBN-13 in each other's place are missed, if and only if their places differ by an even number or the digits by 0 or 5. |
| Isbn.OneCheckDigit13 | apps/api/src/modules/catalog/catalog.policy.ts:41-46 | For twelve digits the computed check digit is the only character that completes a valid ISBN-13. |
| Isbn.StoredIsValid | apps/api/src/modules/catalog/catalog.policy.ts:48-65 | The catalog stores a number if and only if the form in the browser accepts it: an ISBN-13 as it is, an ISBN-10 as the ISBN-13 of 978 and its first nine digits, a blank one not at all. What is stored is valid and stored again as itself; a search looks for the number and, for an ISBN-10, for what is stored. |
| Isbn.StoredOncePerBook | apps/api/src/modules/catalog/catalog.policy.ts:48-59 | Two valid numbers are stored as one, if and only if they mean the same book: a book cannot be entered under both its numbers, and two books never share one. |
| EventStreams.HeardIsListed | apps/api/src/modules/notifications/notifications.repository.ts:16-21 | What the stream brings a listener is on their notification list, and of their tenant the list shows nothing more than what is addressed to them alone. |
| EventStreams.SSEManager.Register | apps/api/src/lib/sseManager.ts:51-76 | Registering adds exactly the new connection; the map keeps each open connection once and no empty set. |
| EventStreams.SSEManager.Closed | apps/api/src/lib/sseManager.ts:67-75 | Closing forgets exactly that connection, also the second time, and the map keeps no empty set. |
| EventStreams.SSEManager.Broadcast | apps/api/src/lib/sseManager.ts:82-94 | Each open connection that hears the notification gets it once, a response already closed does not keep it from the others, and no other connection is written to. |
| EventStreams.SSEManager.PushToStaff | apps/api/src/lib/sseManager.ts:99-106 | Each open connection of the staff member gets the event once, and no other. |
| EventStreams.SSEManager.GetConnectionCount | apps/api/src/lib/sseManager.ts:124-130 | The sum of the set sizes is the number of open connections. |

## Left out

- Characters are Unicode scalar values: a lone surrogate, which a JavaScript string can hold, is not part of the model.
- How numbers, integers and dates are printed into a CSV cell: a value comes as the text its column prints, or null.
- `numberToDecimal` and binary floats: an amount comes as a decimal string, an integer or another amount, and discounts are computed on exact integers, so floating error and amounts below a cent are not modelled.
- `validateDiscountMode`, `validateDiscountType`, `computeLineTotal`, and the comparisons, minimum and maximum of `Money`: easy members.
- Notification handlers are one step that returns or throws; their texts, preferences and routing are finite data.
- Tenants: the tables are those of one tenant, in which a poll and a counter work; the loop over tenants and the poll interval are not modelled.
- Outbox: history rows of reason ACCRUAL that name a sale come from the loyalty handler alone, and other rows only for customers who have an account. `accruePoints` (`apps/api/src/modules/customer/customer.service.ts` line 205) would write such a row for any reference; no route or worker calls it.
- A poll whose database connection is lost while its handler keeps running: a crash stops the poller and the handler together.
- OutboxDrain.PollersShareTheEvents: with several pollers n / 50 is a lower bound only, because a poller that skips the locked rows of another can commit a batch of fewer than fifty; with one poller PollsToDrain gives the exact number.
- OutboxProcess.OneProcessAccruesOnce: speaks of one process; several processes are several pollers at once, for which DoubleAccrualRuns holds.
- Resolve and the drafting operations of a transfer are functions on values, not methods on the tables, so their writes in place are not modelled one by one; DispatchNote and ReceiveNote are methods.
- Notes, numbers, audit entries, timestamps, permissions and the length limits of transfer requests.
- TransferRuns.SentInBookOrder: the order in which rows are locked, not that the database is free of deadlocks.
- The sign-in limiter is one process's; several processes each have their own.
- RefreshTokens: token values are indices, so that a guess never hits a token and no two tokens are alike; a token that was never issued changes nothing. The branch roles checked after the exchange has committed are left out: when that check fails the token has been exchanged all the same.
- Locking an account after failed sign-ins, passwords, switching branches and access tokens.
- StaffRoles.ASuperAdminStays: takes a change as one step; StaffRaces has the same of changes that overlap.
- StaffRaces: rows waited for together are locked together, and which of several waiting transactions goes on first is left open; a transaction the database ends is undone.
- StaffRoles: branches are taken to exist; names, passwords and unlocking are left out.
- Isbn: upper-casing is that of ASCII letters; no other character becomes a digit or an X.
- EventStreams: headers, heartbeats and the text of an event on the wire; a response belongs to one connection.
- DocumentNumbers: the integer range of the counter column and the cast in the consistency rule.
- Orders, special orders, costing and receivables, `lib/idempotency.ts`, `apps/web/src/lib/session.ts`, encryption, backups and the user interface.
