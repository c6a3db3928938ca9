# Verified models of Noctella's hard parts

Noctella is a shop back office: an API, an admin client, a shared package and a few
operational scripts. This project models the parts of it whose correctness is not visible in
one function body, and proves what they are for.

- **Process-tree revocation** (`ProcessTable`, `KernelMeaning`, `SweepProtocol`, `Supervisor`). The supervisor S
  of `landlock-worker.c` forks one worker, waits for it, and then kills and reaps whatever the
  worker left behind. The kernel's process table is a value (incarnation, pid, parent,
  running or zombie, subreaper flag); fork, exit, orphan reparenting, wait and pid reuse are
  events; S is a class whose methods follow the C functions call by call. Between any two of
  S's kernel calls, any number of moves of all other processes happens, and `/proc` may answer
  anything. Safety is proved with no assumption on the others. Progress is proved for a *calm*
  world: the lineage of S (whatever descends from it) forks at most a given number of times
  more, `/proc` lists every process and tells the truth, and no call fails for want of
  resources. The rest of the system forks at will, and for the whole run it is enough that the
  world becomes calm when the sweep starts.
- **Invoice arithmetic** (`Money`, `Invoice`, `InvoiceAllocation`, `InvoiceProperties`,
  `InvoiceMeaning`). Prices and rates are exact reals, amounts are integer cents, and
  `roundMoney` is `floor(x + 1/2)` in cents. The allocation loop is a method proved against the
  share formula; the theorems are about every invoice.
- **Calendar and photo timestamps** (`Calendar`, `Decimal`, `PhotoTimestamps`, `PhotoRecords`,
  `TimestampMeaning`). Gregorian day numbers, the roll-over check, ISO text and the record
  adapters.
- **Start-up backfill** (`InvoiceBackfill`). The invoices table, the key column and the partial
  unique index, through whole histories of start-ups, start-ups killed between two statements,
  inserts and removals.
- **Photo orderings** (`StableSort`, `PhotoOrder`, `PhotoMeaning`). Two stable sorts against one
  comparator, and the Etsy media plan.
- **Graceful shutdown** (`GracefulShutdown`, `ShutdownOutcome`). Signals, the close callback, the
  database shutdown and the deadline as interleaved events.
- **Two client loops** (`UploadKeys`, `Pagination`). The idempotency-key protocol of photo
  uploads, and the loop that reads a listing to its end.

Modules whose name ends in `Meaning` or `Outcome` state what the functions of the model compute
without naming them: on the values entered, on the text, on the photos, on the events.

## What turned out not to hold

- The file comment of `packages/shared/src/invoiceCalculation.ts` (line 9) promises rounding half
  away from zero; line 14 uses `Math.round`, which sends negative halves up. The model follows
  the code; `Money.RoundMatchesCommentIff` says exactly when the two agree.
- "No share of the invoice discount is negative" and "no eligible line is charged on a negative
  base" are both false from four eligible lines on: `InvoiceProperties.NegativeShareInvoice` and
  `NegativeBaseInvoice` give an accepted invoice for every such number of lines, and
  `SoundIffAtMostThree` proves three to be the sharp bound for both.
- "The AI context and the Etsy plan order photos alike" holds for tied photos where the host's
  default collation, which the one uses, orders their ids as the English one does, which the
  other uses; for every cap of the AI context, the two agree on all photo lists exactly when the
  collations are the same: `PhotoOrder.AgreeingCollationsAgree`, `SelectorsAgreeIffCollationsDo`.
- "The Etsy plan is deterministic" holds over all orders of the input exactly when no two ids tie
  in that collation (`PhotoOrder.OrderIndependentIffNoTies`).
- "A listing that `allPages` returns was the listing at some moment" holds exactly for listings of
  one page: a longer one that changes between two reads while its total stays the same is
  returned as a mixture (`Pagination.WasInForceIffOnePage`).
- "COMPLETE carries the worker's status" holds exactly when no `waitid` error but EINTR and ECHILD
  ended the wait for the worker (`Supervisor.Supervisor.RunSupervise`); if the first wait ends
  so, a calm run reports COMPLETE with the initial -1 (`RunWithBrokenWait`).
- PhotoTimestamps.DateSurvivesTextIff: a native date outside the years 0000 to 9999 is written
  in a form that the reader refuses.

`ProcessTable.SubreaperIsNeeded` shows what the order of the set-up is for: without the subreaper
flag, which S sets first, "no children left" would not mean "no descendants left".

## Model

| member | source | states |
|---|---|---|
| ProcessTable.NoChildrenNoDescendant | scripts/photo-publication-capability/landlock-worker.c:180-185 | The tree induction behind "completion is ECHILD": when S has no child, no process in the table descends from it |
| ProcessTable.MoveKeepsInv | scripts/photo-publication-capability/landlock-worker.c:186-217 | Every fork, exit with orphan reparenting, reap and flag change by another process keeps the table a tree with distinct pids in which fork lineage and current tree under S agree |
| KernelMeaning.OthersAreFree | scripts/photo-publication-capability/landlock-worker.c:189-216 | Between two calls of S every other running process may fork, exit, reap its zombies and set its flag |
| KernelMeaning.ForkMeans | scripts/photo-publication-capability/landlock-worker.c:248 | A fork adds one running process and changes no other |
| KernelMeaning.ExitMeans | scripts/photo-publication-capability/landlock-worker.c:219-220 | An exit leaves a zombie with its status and hands orphans to the nearest subreaper above, or to init |
| KernelMeaning.OwnCallsMean | scripts/photo-publication-capability/landlock-worker.c:201-211 | S's own flag, fork, signal and waits, process by process |
| ProcessTable.ForkKeepsLineage | scripts/photo-publication-capability/landlock-worker.c:219-220 | A fork, also one that hands the child to the actor's own parent, keeps lineage and tree under S the same, given the subreaper flag |
| ProcessTable.ExitKeepsLineage | scripts/photo-publication-capability/landlock-worker.c:219-220 | An exit reparents orphans within the tree under S: nothing of S's lineage escapes |
| ProcessTable.ReapKeepsInv | scripts/photo-publication-capability/landlock-worker.c:211 | Reaping a zombie, which frees its pid, keeps the invariant |
| ProcessTable.CompletionIsFinal | scripts/photo-publication-capability/landlock-worker.c:190-191 | Once S has no child, no process of S's lineage is in the table and no schedule of the others can ever bring one back |
| ProcessTable.SubreaperIsNeeded | scripts/photo-publication-capability/landlock-worker.c:219-220 | A concrete run without the subreaper flag: S sees no child while a process of its lineage runs on |
| ProcessTable.ReplayShrinks | scripts/photo-publication-capability/landlock-worker.c:189-216 | Over any schedule, processes that survive keep their descent from S and their ancestor lines only shrink |
| ProcessTable.KinGrowsByForks | scripts/photo-publication-capability/landlock-worker.c:189-216 | The lineage of S in the table grows by at most its own forks, whatever the rest of the system does |
| ProcessTable.HeightGrowsByForks | scripts/photo-publication-capability/landlock-worker.c:189-216 | So does the height of the tree under S |
| ProcessTable.HeightAtMostKin | scripts/photo-publication-capability/landlock-worker.c:189-216 | The tree under S is no higher than its lineage is large |
| ProcessTable.HeightZeroIffNoChildren | scripts/photo-publication-capability/landlock-worker.c:190-191 | The tree under S has height 0 exactly when S has no child |
| ProcessTable.ClearingChildrenLowersHeight | scripts/photo-publication-capability/landlock-worker.c:189-216 | The convergence measure: once every former child of S is gone the tree under S is a level lower, but for one level that each fork of its lineage since may have added |
| SweepProtocol.SignalledChildIsReaped | scripts/photo-publication-capability/landlock-worker.c:196-212 | In a log that follows the protocol, every SIGKILL hits an unreaped child of S and S's next own call reaps that same incarnation |
| SweepProtocol.OthersKeepChildren | scripts/photo-publication-capability/landlock-worker.c:201-211 | No schedule of other processes takes a child from S, changes its pid or reaps it: a pinned and proven child stays one |
| SweepProtocol.GoneStaysGone | scripts/photo-publication-capability/landlock-worker.c:201-211 | A reaped incarnation never returns, whoever gets its pid |
| SweepProtocol.ZombieExited | scripts/photo-publication-capability/landlock-worker.c:275 | A zombie's status is the one it exited with |
| SweepProtocol.ExitsOnce | scripts/photo-publication-capability/landlock-worker.c:275 | An incarnation exits at one moment with one status |
| Supervisor.RealStatusIsUnique | scripts/photo-publication-capability/landlock-worker.c:271-276 | The status reported for a worker is determined by its exit and is never the initial -1 |
| Supervisor.RealStatusTellsTheEnd | scripts/photo-publication-capability/landlock-worker.c:275 | The real status is the code the worker exited with, or 128 more than the signal that killed it, and one of the two happened |
| Supervisor.Supervisor.Others | scripts/photo-publication-capability/landlock-worker.c:189-216 | Any moves of the others keep the log protocol and every child of S, zombie or not, with its pid |
| Supervisor.Supervisor.WaitAny | scripts/photo-publication-capability/landlock-worker.c:174 | waitid for any child: collects a zombie child with its pid and real status, reports no child only when there is none, returns empty only when no child is a zombie, and leaves less of the lineage to reap |
| Supervisor.Supervisor.ReapExited | scripts/photo-publication-capability/landlock-worker.c:171-178 | Returns "none left" only when S has no child and "some left" only when it has one; ends in a calm world within one wait more than its lineage has members or still forks |
| Supervisor.Supervisor.ParentOf | scripts/photo-publication-capability/landlock-worker.c:156-168 | Arbitrary in general; in a calm world the parent's pid of whoever holds the pid, and -1 if nobody does |
| Supervisor.Supervisor.PinChild | scripts/photo-publication-capability/landlock-worker.c:201-208 | Whoever holds the pid now, a pinned target that passes the WNOWAIT check is S's own child; in a calm world a pid passed over belongs to no former child |
| Supervisor.Supervisor.KillAndWait | scripts/photo-publication-capability/landlock-worker.c:209-211 | SIGKILL through the pidfd leaves the target a zombie child still owed to S |
| Supervisor.Supervisor.Revoke | scripts/photo-publication-capability/landlock-worker.c:209-212 | A proven child is signalled and that incarnation is reaped and gone; a failure happens only outside a calm world |
| Supervisor.Supervisor.VisitEntry | scripts/photo-publication-capability/landlock-worker.c:196-213 | One /proc entry, with arbitrary pid reuse between the calls: the protocol is kept, and in a calm world no former child of S keeps that pid |
| Supervisor.Supervisor.Pass | scripts/photo-publication-capability/landlock-worker.c:193-214 | A whole pass in a calm world leaves no former child of S in the table |
| Supervisor.Supervisor.PassLowersHeight | scripts/photo-publication-capability/landlock-worker.c:189-216 | Hence a whole pass in a calm world strictly lowers the height of the tree plus the forks still to come |
| Supervisor.Supervisor.Turn | scripts/photo-publication-capability/landlock-worker.c:189-214 | One turn of the sweep loop: complete only without children, unidentifiable exactly when a call failed, otherwise a strictly lower height plus forks to come in a calm world |
| Supervisor.Supervisor.Sweep | scripts/photo-publication-capability/landlock-worker.c:186-217 | Every signal of every interleaving follows the protocol; 0 is returned only when nothing of S's lineage is left in the table, -1 exactly when a call failed; in a calm world 0 is returned within as many passes as the tree is high and its lineage still forks |
| Supervisor.Supervisor.AwaitWorker | scripts/photo-publication-capability/landlock-worker.c:271-276 | The wait loop ends with the worker's real status, or with -1 exactly when a wait fails with neither EINTR nor ECHILD; ECHILD never comes before the worker; in a calm world it ends, waits in which the worker still ran aside, within as many waits as there is lineage to reap |
| Supervisor.Supervisor.Prerequisites | scripts/photo-publication-capability/landlock-worker.c:219-229 | Success means the subreaper flag is set and no fault point other than the sweep's is active; with the first fault point the flag is never touched |
| Supervisor.Supervisor.ForkWorker | scripts/photo-publication-capability/landlock-worker.c:248-249 | The worker is a new child of S, forked by S itself, under any free pid |
| Supervisor.Supervisor.StartWorker | scripts/photo-publication-capability/landlock-worker.c:241-249 | A worker is forked, or the start is refused for a fault point or a failed set-up, in a calm world only for a fault point other than the one of the sweep |
| Supervisor.Supervisor.SweepQuietly | scripts/photo-publication-capability/landlock-worker.c:287 | The sweep of `run_supervise` completes if the forks of S's lineage are bounded from its start on and there is time for as many passes as the tree is then high and still forks |
| Supervisor.Supervisor.CountCandidates | scripts/photo-publication-capability/landlock-worker.c:278-282 | Under the test fault S kills nothing; in a calm world it counts no fewer candidates than it had children when the count began, whatever moves in between, and exactly these if nothing does |
| Supervisor.Supervisor.SuperviseWorker | scripts/photo-publication-capability/landlock-worker.c:260-296 | Report and exit code fit setup errno, fault and sweep result; COMPLETE only over an empty lineage, with -1 exactly when the wait broke down and otherwise with the code the worker exited with or 128 more than the signal that killed it; COMPLETE is certain once the sweep starts in a world that is calm from then on |
| Supervisor.Supervisor.RunSupervise | scripts/photo-publication-capability/landlock-worker.c:241-296 | From start to exit: a worker is forked exactly when not refused; COMPLETE with code 0 is reported only when no process of S's lineage is left and none can appear; its status is -1 exactly when the wait broke down, otherwise the exit code of the forked worker or 128 more than the signal that killed it; it is certain once forks are bounded at the sweep; the fault report counts all children in a calm world |
| Supervisor.Supervisor.RunWithBrokenWait | scripts/photo-publication-capability/landlock-worker.c:271-276 | The witness: a calm run whose first wait fails with neither EINTR nor ECHILD always ends in COMPLETE with status -1 |
| Money.Round | packages/shared/src/invoiceCalculation.ts:13-15 | The rounded value is within half a cent, with exact halves going up |
| Money.RoundMatchesCommentIff | packages/shared/src/invoiceCalculation.ts:7-15 | The code agrees with the promised half-away-from-zero exactly off the negative halves |
| Invoice.EligibleIndices | packages/shared/src/invoiceCalculation.ts:105 | The filter yields all eligible indices in increasing order and no other |
| Invoice.AllocateDiscount | packages/shared/src/invoiceCalculation.ts:105-113 | The loop with its running `used` computes the rounded proportional share of every eligible line but the last, which gets the remainder |
| Invoice.CalculateInvoiceTotals | packages/shared/src/invoiceCalculation.ts:91-148 | The whole calculation, with both discount errors and the four net/gross and manual/automatic modes; what each of its numbers means is stated on the input by the rows of InvoiceMeaning |
| InvoiceMeaning.LineIsWorthWhatWasEntered | packages/shared/src/invoiceCalculation.ts:93-98 | Charged base plus discount share of a line is its price less its own discount, as entered: to the nearest cent in net mode, within (f + 1)/2 cents after VAT is put back on with factor f in VAT-inclusive mode |
| InvoiceMeaning.LineVatIsDue | packages/shared/src/invoiceCalculation.ts:115-128 | Line VAT is the manual amount, or the rate on the charged base, to the nearest cent; both make the line total |
| InvoiceMeaning.SharesAreProportional | packages/shared/src/invoiceCalculation.ts:100-113 | On the result: no share for lines worth nothing, the proportional share to the nearest cent for all eligible lines but the last, and the last within half a cent for each other line |
| InvoiceMeaning.ShippingIsWorthWhatWasEntered | packages/shared/src/invoiceCalculation.ts:131-144 | Shipping and its VAT against what was entered, in all four modes |
| InvoiceMeaning.TotalsAddUp | packages/shared/src/invoiceCalculation.ts:84-89 | The subtotal is what the lines worth something are worth; the VAT total is all line VATs and shipping VAT; subtotal less discount plus VAT plus shipping is the grand total |
| InvoiceMeaning.RefusedIff | packages/shared/src/invoiceCalculation.ts:101-103 | Refused exactly for a discount that rounds below zero, or above the subtotal the same invoice has without discount |
| InvoiceMeaning.WellPosedIff | packages/shared/src/invoiceCalculation.ts:96 | Everything but a rate of -100 percent in VAT-inclusive mode can be calculated |
| InvoiceAllocation.AllocationSumsToDiscount | packages/shared/src/invoiceCalculation.ts:75-79 | For any lines the shares sum exactly to the accepted discount |
| InvoiceAllocation.RoundedShareInRange | packages/shared/src/invoiceCalculation.ts:110 | Every share but the remainder lies between 0 and its line's base |
| InvoiceAllocation.RemainderWithinBound | packages/shared/src/invoiceCalculation.ts:108-113 | With k eligible lines the remainder is within (k-1)/2 cents of its exact proportional share |
| InvoiceAllocation.ThreeLinesStayInRange | packages/shared/src/invoiceCalculation.ts:108-113 | With at most three eligible lines every share, the remainder included, lies between 0 and its base |
| InvoiceAllocation.FourLinesCanGoNegative | packages/shared/src/invoiceCalculation.ts:108-113 | For every k from four on, k eligible bases and an accepted discount with a negative remainder |
| InvoiceAllocation.FourLinesCanOvershoot | packages/shared/src/invoiceCalculation.ts:108-113 | For every k from four on, k eligible bases and an accepted discount whose remainder exceeds its base |
| InvoiceAllocation.RangeHoldsIffAtMostThree | packages/shared/src/invoiceCalculation.ts:108-113 | The range property holds for all bases and accepted discounts with k eligible lines if and only if k is at most three |
| InvoiceProperties.BasesSum | packages/shared/src/invoiceCalculation.ts:84-89 | The charged bases sum to subtotal less discount less any over-discounting of lines |
| InvoiceProperties.TotalReconciles | packages/shared/src/invoiceCalculation.ts:84-89 | In all modes the grand total minus line totals, shipping and shipping VAT is exactly the amount by which lines were discounted below zero, hence 0 without such lines |
| InvoiceProperties.ResultSharesSum | packages/shared/src/invoiceCalculation.ts:86-88 | The discounts shown on the lines add up to the discount of the invoice |
| InvoiceProperties.FewLinesNeverNegative | packages/shared/src/invoiceCalculation.ts:124 | With at most three eligible lines no line has a negative share and no eligible line is charged on a negative base |
| InvoiceProperties.NegativeShareInvoice | packages/shared/src/invoiceCalculation.ts:91-127 | For every k from four on, an accepted invoice whose result shows a negative share |
| InvoiceProperties.NegativeBaseInvoice | packages/shared/src/invoiceCalculation.ts:91-127 | For every k from four on, an accepted invoice that charges a line of one cent on minus one cent |
| InvoiceProperties.SoundIffAtMostThree | packages/shared/src/invoiceCalculation.ts:91-127 | No accepted invoice with k eligible lines shows a negative share, or charges an eligible line on a negative base, if and only if k is at most three |
| InvoiceProperties.DiscountReducesVat | packages/shared/src/invoiceCalculation.ts:66-73 | With one rate and automatic VAT, total line VAT is within n/2 cents of the rate times the discounted subtotal, however the discount was split |
| InvoiceProperties.GrossIsRecovered | packages/shared/src/invoiceCalculation.ts:95-126 | VAT-inclusive, automatic VAT, no invoice discount: each line total is within one cent of the entered price less line discount, rounded to cents |
| InvoiceMeaning.LineGivesBackWhatWasEntered | packages/shared/src/invoiceCalculation.ts:95-126 | So it is within a cent and a half of the entered values themselves |
| InvoiceProperties.GrossRecoveryIsSharp | packages/shared/src/invoiceCalculation.ts:91-127 | The one cent really occurs on invoices, both ways: 3 cents at 20 percent come back as 4, 16 cents at 19 percent as 15 |
| InvoiceProperties.ShippingGrossIsExact | packages/shared/src/invoiceCalculation.ts:131-144 | VAT-inclusive shipping net and shipping VAT add up to the entered gross exactly |
| InvoiceProperties.InvoiceGrossIsRecovered | packages/shared/src/invoiceCalculation.ts:91-148 | The grand total of a VAT-inclusive invoice without invoice discount is within one cent a line of the entered lines, each rounded to cents, and shipping |
| InvoiceMeaning.InvoiceGivesBackWhatWasEntered | packages/shared/src/invoiceCalculation.ts:91-148 | So it is within a cent and a half a line, and half a cent for shipping, of the sum of the entered values themselves |
| Calendar.CivilRoundTrip | apps/api/src/repositories/photoTimestamps.ts:12-14 | A valid date is read back from its day number |
| Calendar.DayRoundTrip | apps/api/src/repositories/photoTimestamps.ts:12-14 | A day number is regained from its civil date |
| Calendar.MonthFixesYear | apps/api/src/repositories/photoTimestamps.ts:14 | No two years start the same month on the same day number, which is why the year need not be compared |
| Calendar.RollOverAcceptsExactlyValidDates | apps/api/src/repositories/photoTimestamps.ts:12-14 | Comparing month and day after `setUTCFullYear` accepts exactly the valid Gregorian dates, for all integers |
| Calendar.ValidDateIff | apps/api/src/repositories/photoTimestamps.ts:12-14 | A date is valid exactly when the month exists and has that day, by month lengths and leap rule written out |
| Calendar.DaysFollowTheCalendar | apps/api/src/repositories/photoTimestamps.ts:12-14 | Day 0 is 1 January 1970 and each day is the date after the day before, by the same month lengths |
| Calendar.MakeDayRollsOver | apps/api/src/repositories/photoTimestamps.ts:13 | Days and months beyond the end are counted on, as `setUTCFullYear` does |
| PhotoTimestamps.AcceptsExactly | apps/api/src/repositories/photoTimestamps.ts:6-18 | Whether the engine rolls days over or refuses them makes no difference: a string is accepted exactly when every field is in range |
| TimestampMeaning.ShapeIff | apps/api/src/repositories/photoTimestamps.ts:9 | The pattern matches exactly the texts put together from a date, a time, at most three decimals and a zone |
| TimestampMeaning.AcceptedIff | apps/api/src/repositories/photoTimestamps.ts:9-14 | Such a text is accepted exactly when its date exists and its clock and zone show times of day |
| TimestampMeaning.UtcTextIsItsInstant | apps/api/src/repositories/photoTimestamps.ts:10 | A text with Z is the instant its date and clock say, in milliseconds |
| TimestampMeaning.ZoneShiftsTheInstant | apps/api/src/repositories/photoTimestamps.ts:8-10 | The same clock in a zone ahead of UTC is that much earlier, in one behind that much later |
| TimestampMeaning.FractionsArePadded | apps/api/src/repositories/photoTimestamps.ts:9-10 | No decimals, one or two are the same instant as with zeros up to three |
| TimestampMeaning.EpochIsZero | apps/api/src/repositories/photoTimestamps.ts:10 | The text of the epoch is instant 0 |
| TimestampMeaning.KnownInstant | apps/api/src/repositories/photoTimestamps.ts:10 | A well-known instant, written two hours ahead of UTC |
| PhotoTimestamps.FieldsDenoteInstant | apps/api/src/repositories/photoTimestamps.ts:31 | The clock fields of an instant denote that instant |
| PhotoTimestamps.IsoReads | apps/api/src/repositories/photoTimestamps.ts:31 | ISO text of an instant in years 0000 to 9999 is canonical and parses to the instant's own fields |
| PhotoTimestamps.DateSurvivesTextIff | apps/api/src/repositories/photoTimestamps.ts:6-33 | A date written out and read in is the same instant exactly when its year has four digits, and is refused otherwise |
| PhotoTimestamps.CanonicalTextSurvives | apps/api/src/repositories/photoTimestamps.ts:27-33 | A valid canonical text is what its own instant is written as |
| TimestampMeaning.CanonicalIff | apps/api/src/repositories/photoTimestamps.ts:9 | The canonical texts are those with three decimals and Z |
| TimestampMeaning.SignedYearText | apps/api/src/repositories/photoTimestamps.ts:31 | Beyond four digits a year is written with a sign and six digits, the rest as ever |
| PhotoRecords.PhotoTimestampValues | apps/api/src/repositories/photoTimestamps.ts:20-25 | Exactly the listed fields become the native dates their texts stand for; it throws exactly when one cannot, naming the first |
| PhotoRecords.PhotoTimestampRecord | apps/api/src/repositories/photoTimestamps.ts:28-33 | Exactly the listed native dates become text; it throws exactly when one is invalid |
| PhotoRecords.MakeOneNative | apps/api/src/repositories/photoTimestamps.ts:23 | One turn of the loop decides on the copy as on the original, also for a field listed twice |
| PhotoRecords.ValuesThenRecordIsIdentity | apps/api/src/repositories/photoTimestamps.ts:20-33 | Rows whose listed fields are blank or canonical texts come back unchanged |
| PhotoRecords.RoundTrip | apps/api/src/repositories/photoTimestamps.ts:20-33 | Both adapters in a row succeed on such a row and return it |
| PhotoRecords.OffsetBecomesUtc | apps/api/src/repositories/photoTimestamps.ts:20-33 | A text with an offset comes back as canonical UTC text of the same instant, which the rows of TimestampMeaning tell from the text |
| InvoiceBackfill.BackfillKeepsKeysUnique | apps/api/src/db/migrate.ts:533-542 | The UPDATE keeps set keys unique and each row's key its own order id |
| InvoiceBackfill.BackfillIsIdempotent | apps/api/src/db/migrate.ts:535-537 | A second UPDATE changes nothing |
| InvoiceBackfill.ReportIsExact | apps/api/src/db/migrate.ts:533-550 | After the UPDATE an order is left without key exactly when it was before and has two or more sales invoices |
| InvoiceBackfill.BackfillIs | apps/api/src/db/migrate.ts:533-542 | A row gets its order id as key exactly when it is a sales invoice without key and the only one of its order; nothing else changes |
| InvoiceBackfill.UpdateRow | apps/api/src/db/migrate.ts:538-542 | One row of the UPDATE, and when the key index refuses it |
| InvoiceBackfill.InvoiceDatabase.UpdateKeys | apps/api/src/db/migrate.ts:538-542 | The row-by-row UPDATE sets exactly the unambiguous missing keys, or is refused by the index and rolled back |
| InvoiceBackfill.InvoiceDatabase.ListHistoricalDuplicateOrderIds | apps/api/src/db/migrate.ts:574-580 | Lists, once each, exactly the orders with a sales invoice without key |
| InvoiceBackfill.InvoiceDatabase.EnsureInvoiceAccountingColumns | apps/api/src/db/migrate.ts:529-563 | Succeeds exactly when the backfilled keys are unique; the whole new table, indexes included, and the reported orders |
| InvoiceBackfill.StatementsAreStartUp | apps/api/src/db/migrate.ts:529-563 | The four statements in a row are the start-up, refused or not |
| InvoiceBackfill.HistoricalIff | apps/api/src/db/migrate.ts:500-531 | The histories the other rows start from: any rows without keys, with or without column and indexes, as far as the engine allows them |
| InvoiceBackfill.StatementsAreSafe | apps/api/src/db/migrate.ts:529-563 | On a safe table no statement is refused, and stopping after any of them leaves a safe table with the same work to do |
| InvoiceBackfill.KilledStartUpIsMadeGood | apps/api/src/db/migrate.ts:533-563 | The start-up after one that was killed between two statements ends as if nothing had happened |
| InvoiceBackfill.StepIsSafe | apps/api/src/db/migrate.ts:529-563 | From a safe table every start-up, killed start-up, insert and removal leads to a safe table and a start-up never throws |
| InvoiceBackfill.EveryStartUpSucceeds | apps/api/src/db/migrate.ts:533-563 | From any history without keys, through any start-ups, killed or not, inserts and removals, every start-up succeeds and keys stay unique |
| InvoiceBackfill.SetKeysNeverChange | apps/api/src/db/migrate.ts:535-537 | Over a whole run every row that was not removed is still there, where the removals leave it, unaltered but for an empty key that may be filled |
| InvoiceBackfill.RepeatedStartUpIsNoOp | apps/api/src/db/migrate.ts:535-537 | A start-up right after a start-up changes nothing |
| InvoiceBackfill.ReportAfterRun | apps/api/src/db/migrate.ts:569-580 | After any history that ends in a start-up each reported order has two or more sales invoices, and every single sales invoice has its key |
| InvoiceBackfill.IndexesAfterStartUp | apps/api/src/db/migrate.ts:553-563 | After any history that ends in a start-up a second keyed draft of an order is refused, other drafts are taken with the right key, and historical duplicates are never refused |
| InvoiceBackfill.OldIndexRefuses | apps/api/src/db/migrate.ts:553-561 | Before, the old order index, and nothing else, refuses a second sales invoice of an order |
| StableSort.SortIsSorted | apps/api/src/canonical-product-ai/context.ts:15-17 | Sorting yields an ordered permutation |
| StableSort.SortIsStable | apps/api/src/canonical-product-ai/context.ts:15-17 | Equal elements keep their order |
| StableSort.StableSortIsUnique | apps/api/src/canonical-product-ai/context.ts:15-17 | Order and stability leave a sort no choice, so the model's sort is the language's |
| StableSort.SortsCompose | apps/api/src/canonical-product-ai/context.ts:18-20 | A stable sort by the minor order followed by one by the major order is one sort by the combined order |
| StableSort.SortUsesOnlyItsMembers | apps/api/src/canonical-product-ai/context.ts:15-17 | Comparators that agree on the elements of a list sort it alike |
| PhotoOrder.TwoSortsAreOne | apps/api/src/canonical-product-ai/context.ts:18-22 | The two sorts of the AI context are one sort by primary, sort order and the host's collation of ids |
| PhotoOrder.HasDuplicateId | apps/admin/src/lib/etsyMediaPlan.ts:44-49 | The flag is set exactly when an id is empty or repeated |
| PhotoOrder.FilterEligible | apps/admin/src/lib/etsyMediaPlan.ts:52-59 | Keeps the eligible photos in order and reports each complete photo with an unsafe URL |
| PhotoOrder.MapMedia | apps/admin/src/lib/etsyMediaPlan.ts:73-91 | Ranks the shown photos and reports their alt-text warnings in order |
| PhotoOrder.BuildEtsyMediaPlan | apps/admin/src/lib/etsyMediaPlan.ts:41-94 | The plan with all issues in the order they are pushed |
| PhotoMeaning.PlanShows | apps/admin/src/lib/etsyMediaPlan.ts:52-91 | The media list is the first twenty of all photos that are processed and have only displayable URLs, primaries first, then by sort order, then by id, with the right fields, ranks and alt-text warnings; eligible and truncated counts |
| PhotoMeaning.IssuesMean | apps/admin/src/lib/etsyMediaPlan.ts:42-92 | Each issue is reported exactly when the photos call for it, with its photo or its count |
| PhotoMeaning.IssuesInOrder | apps/admin/src/lib/etsyMediaPlan.ts:42-92 | Issues come in the order in which they are found |
| PhotoMeaning.ReadyMeans | apps/admin/src/lib/etsyMediaPlan.ts:94 | Ready means no empty or repeated id and exactly one primary among the photos that may be shown |
| PhotoMeaning.ContextShows | apps/api/src/canonical-product-ai/context.ts:18-22 | The AI context lists the first of all photos, primaries first, then by sort order, then by id in the host's collation, up to the cap |
| PhotoOrder.AgreeingCollationsAgree | apps/admin/src/lib/etsyMediaPlan.ts:65-73 | For any cap, the AI context and the Etsy plan show the same eligible photos in the same order, as far as both go, where the host's and the English collation agree on the ids of tied photos |
| PhotoOrder.DisagreeingCollationsDisagree | apps/api/src/canonical-product-ai/context.ts:18-22 | For any cap that shows a photo, two tied photos come out in different orders wherever the two collations differ on their ids |
| PhotoOrder.SelectorsAgreeIffCollationsDo | apps/api/src/canonical-product-ai/context.ts:18-22 | For any cap that shows a photo, the two selectors agree on all photo lists if and only if the two collations are the same |
| PhotoOrder.EveryPhotoAccountedFor | apps/admin/src/lib/etsyMediaPlan.ts:60-94 | Shown, truncated and excluded photos add up to the input, with ranks 1 to n and at most twenty shown |
| PhotoOrder.PrimaryCountOfPermutation | apps/admin/src/lib/etsyMediaPlan.ts:62-64 | The number of primaries does not depend on the order |
| PhotoOrder.ReadyIff | apps/admin/src/lib/etsyMediaPlan.ts:94 | Ready exactly when ids are distinct and one eligible photo is the only primary |
| PhotoOrder.ReadyIffNoBlockingIssue | apps/admin/src/lib/etsyMediaPlan.ts:50-94 | Ready exactly when no issue names a duplicate id, a missing primary or several primaries |
| PhotoOrder.ReadyMeansOnePrimaryFirst | apps/admin/src/lib/etsyMediaPlan.ts:65-94 | A ready plan survives truncation with its only primary first |
| PhotoOrder.PlanIgnoresInputOrder | apps/admin/src/lib/etsyMediaPlan.ts:40-94 | With distinct ids of which no two tie any permutation of the input gives the same media list, readiness and counts, and the same issues as often each |
| PhotoOrder.TiedIdsFollowTheInput | apps/admin/src/lib/etsyMediaPlan.ts:65-69 | Two photos whose ids tie are shown in input order, so that swapping them changes the media list |
| PhotoOrder.OrderIndependentIffNoTies | apps/admin/src/lib/etsyMediaPlan.ts:40-69 | The media list is the same for all orders of all photos with distinct ids if and only if no two ids tie |
| GracefulShutdown.Shutdown.ReceiveSignal | apps/api/src/serverLifecycle.ts:69-79 | A first signal arms the deadline and starts the close; any other does nothing |
| GracefulShutdown.Shutdown.OnDeadline | apps/api/src/serverLifecycle.ts:73-78 | The deadline forces exit 1 unless the shutdown has ended |
| GracefulShutdown.Shutdown.Continue | apps/api/src/serverLifecycle.ts:81-98 | The continuation of each await, with the terminal checks and the catch block |
| GracefulShutdown.OnlyTheseEffects | apps/api/src/serverLifecycle.ts:47-55 | In every interleaving the effects are one of six lists: close and database shutdown start at most once and in this order, and the program exits at most once |
| ShutdownOutcome.EffectsAreTold | apps/api/src/serverLifecycle.ts:68-98 | All that the program does, told from the events alone: the database is shut down exactly when the first close callback succeeded and was resumed before any deadline; exit 0 exactly when that succeeded too and was resumed in time; exit 1 exactly when either failed and was resumed in time, or the deadline fired |
| ShutdownOutcome.WhatCanHappen | apps/api/src/serverLifecycle.ts:68-98 | Which runs there are: signals always, callbacks once the close was asked for, one database outcome, the deadline until the exit |
| ShutdownOutcome.EndsArePossible | apps/api/src/serverLifecycle.ts:68-98 | The orderly run and both failures are among them |
| ShutdownOutcome.EventsAreRecorded | apps/api/src/serverLifecycle.ts:68-98 | The history the other rows read keeps every event in order |
| GracefulShutdown.ExitsZeroIff | apps/api/src/serverLifecycle.ts:80-88 | Exit 0 exactly when the database shutdown succeeded and was resumed and no deadline ever fired, and then signal, close, database shutdown and exit happened in order |
| GracefulShutdown.FiredDeadlineExitsOnce | apps/api/src/serverLifecycle.ts:73-78 | A fired deadline means exactly one exit, with code 1, and no database shutdown after it |
| GracefulShutdown.DeadlineIsPending | apps/api/src/serverLifecycle.ts:73-98 | After a signal the program has exited, or the deadline is pending and firing it exits |
| GracefulShutdown.RepeatedSignalIsNoOp | apps/api/src/serverLifecycle.ts:51-55 | Inserting a signal anywhere after the first leaves the rest of the run as it was |
| UploadKeys.ProductPhotoUploadKeys.KeyFor | apps/admin/src/lib/productPhotos.ts:64-70 | The bound key for an unchanged alt text, otherwise a fresh one, now bound |
| UploadKeys.ProductPhotoUploadKeys.Settle | apps/admin/src/lib/productPhotos.ts:71-73 | Releases the key on success and on a definitive rejection, and only then |
| UploadKeys.SameKeyIffOneUpload | apps/admin/src/lib/productPhotos.ts:47-53 | In every interleaving two attempts carry one key exactly when they belong to one logical upload: same file, one alt text throughout, nothing definitive in between |
| UploadKeys.KeysAreNeverShared | apps/admin/src/lib/productPhotos.ts:47-53 | Two files never share a key, and no key is sent with two alt texts |
| UploadKeys.OnePhotoPerUpload | apps/admin/src/lib/productPhotos.ts:49-51 | All attempts of one logical upload create at most one photo, whatever responses are lost and whenever requests are served |
| UploadKeys.KeysSentCount | apps/admin/src/lib/productPhotos.ts:61-75 | As many keys are sent for a file as it has logical uploads |
| UploadKeys.PhotosWithinUploads | apps/admin/src/lib/productPhotos.ts:49-51 | The server never holds more photos of a file than the file had logical uploads |
| UploadKeys.RetriesAreOneUpload | apps/admin/src/lib/productPhotos.ts:49-51 | Without success, definitive rejection or changed alt text a file has at most one upload and one photo, however often it is retried |
| UploadKeys.RetryableFailuresKeepTheKey | apps/admin/src/lib/productPhotos.ts:54-63 | With the failures written out: through lost responses, server errors, 408, 429 and the two conflicts that say the upload is under way, all attempts on a file carry one key and it has at most one photo |
| UploadKeys.DefinitiveAnswersEndTheKey | apps/admin/src/lib/productPhotos.ts:54-63 | After a success or any other answer of the server no attempt carries a key sent before |
| UploadKeys.NewAltTextHasNewKey | apps/admin/src/lib/productPhotos.ts:65-68 | A new alt text never carries the key of the old one |
| UploadKeys.AttemptsAreSent | apps/admin/src/lib/productPhotos.ts:64-70 | An attempt is sent as it was made |
| UploadKeys.ServedRequestsHaveAPhoto | apps/admin/src/lib/productPhotos.ts:49-51 | Once the server has worked on a request there is a photo of its file under its key |
| Pagination.AppendNew | apps/admin/src/lib/stockDashboard.ts:18-22 | Appends a page exactly when no id repeats |
| Pagination.AllPages | apps/admin/src/lib/stockDashboard.ts:7-26 | Against any server: returns exactly when the pages fit together, then all of them with as many items as the total; otherwise the first page that does not fit and why; at most max(1, total) reads |
| Pagination.HonestIsComplete | apps/admin/src/lib/stockDashboard.ts:6 | A server that pages a fixed list with distinct ids fits together, for any page size |
| Pagination.ReadHonest | apps/admin/src/lib/stockDashboard.ts:6-26 | From such a server the list itself is returned, after as many reads as it has pages |
| Pagination.OnePageWasInForce | apps/admin/src/lib/stockDashboard.ts:6 | From a server with a changing list of one page, what is returned is the list of that read |
| Pagination.ChangeWithSameTotalGoesUnseen | apps/admin/src/lib/stockDashboard.ts:10-17 | For every page size and every longer total, one change after the first read that keeps the total: what is returned differs from the list before and from the list after |
| Pagination.WasInForceIffOnePage | apps/admin/src/lib/stockDashboard.ts:6 | Over all histories of a list with this total, what is returned was the list at one of the reads if and only if the total fits on one page |

## Left out

- Landlock rules, `confine`, descriptor layout, peer credentials, `close_range`, environment scrubbing, `exec`, and the plain and reaper modes of `landlock-worker.c`: foreign calls; `run_reaper` compares raw pids after a child may have been reaped, so its "once" is no theorem.
- Processes entering the tree from outside it (ptrace, a process in another pid namespace) and S itself being killed: assumed not to happen.
- Supervisor.Supervisor.AwaitWorker: the loop is followed for `waits` returns of `waitid`, since a worker may run for ever.
- Supervisor.Supervisor.RunSupervise: a supervisor that starts with inherited children and without the subreaper flag (children kept over an `exec`): their orphans can leave its tree before it sets the flag. One that starts without children, or with the flag set, is covered.
- Supervisor.Supervisor.ReapExited: followed for `fuel` waits, since other processes may supply zombies for ever; its `watch` parameters are unused by every call that is modelled.
- Supervisor.Supervisor.VisitEntry: the count of candidates that a sweep keeps and nothing reads.
- Supervisor.Supervisor.Sweep: the five-second clock is the number of passes that end within the deadline.
- Supervisor.Supervisor.CollectFailedWorker: the status pipe is a parameter, the errno the worker writes before it execs.
- Money.Round: binary floating point, `Number.EPSILON` and `toFixed`; the theorems are over exact cents and exact rates.
- Invoice.CalculateInvoiceTotals: a rate of exactly -100 percent in VAT-inclusive mode, where the source divides by zero, and inputs that are not numbers.
- PhotoRecords.PhotoTimestampValues: values that are neither text, date, null nor undefined stand as one kind that is refused; years beyond the range of a JavaScript date cannot arise from the pattern.
- InvoiceBackfill.InvoiceDatabase.EnsureInvoiceAccountingColumns: the other columns it adds, console output, updates of invoices, and every other function of `migrate.ts`. Draft inserts are modelled as `apps/api/src/services/erpSalesFinanceBridge.ts` makes them: the key is the order id.
- PhotoOrder.BuildEtsyMediaPlan: `localeCompare`, `trim` and the URL check are parameters, the first any total preorder on ids, one for each of its two call sites; `sortOrder` is an integer; a missing thumbnail or alt text is the empty string.
- PhotoOrder.PlanIgnoresInputOrder: not the order of `issues`; those of unsafe URLs follow the input.
- GracefulShutdown.Shutdown.Continue: exceptions thrown by the log and exit functions, and `process.exit` ending the process at once, after which the model's run merely goes on without effects.
- UploadKeys.ProductPhotoUploadKeys.KeyFor: random keys are modelled as never repeating; that a `WeakMap` forgets files nobody holds cannot be observed. The server is any server that deduplicates by key; `apps/api/src/routes/productPhotoUpload.ts` is not part of this model.
- Pagination.AllPages: promises are a function from page number to answer, which covers a server that changes between reads because no page is read twice.
- Port parsing, photo reordering, publication readiness, stock rows and periods, routes, React components, AI providers, payments and text helpers: properties settled by reading one branch.
