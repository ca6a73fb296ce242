# NationWide importers, bulk generator and client logic: a verified model

This project models the data-handling cores of the NationWide Logistics repository in Dafny and proves
what they are relied on for: that an imported tariff leaves no weight unpriced, that generated invoices
form the gapless series GST asks for, that an interrupted import can simply be run again, that a
point-in-polygon answer means what it should, and a handful of client-side invariants.

| file | what it models |
|---|---|
| `Text.dfy` | characters, trimming and letter case as the source's regular expressions see them |
| `Runs.dfy` | replacing every run of unwanted characters by one mark, behind slugs and normal forms |
| `StableSort.dfy` | the stable sort behind every `sort` call of the source |
| `SheetWeights.dfy` | the weight column of a tariff sheet: which cells are flat steps and bands |
| `TariffSheet.dfy` | the tariff sheet parser, a row-by-row state machine (`import-tariffs.ts`) |
| `SlabLookup.dfy` | the weight axis the parsed slabs cover, and the slab look-up of the quote engine |
| `TariffStore.dfy` | country resolution and the keyed tables a tariff is applied to |
| `BulkBook.dfy`, `BulkGenerator.dfy` | the rows of a generated wave and the generator, every draw arbitrary (`seed-bulk.ts`) |
| `InvoiceSeries.dfy` | invoice numbering and the integrity check's series aggregates (`verify-bulk-seed.ts`) |
| `BulkChecks.dfy` | the integrity check: row conditions, proved of the tables any waves leave, and number conditions |
| `BulkFlush.dfy` | the batched writer, what a crash leaves, and foreign keys |
| `BulkRun.dfy` | runs, crashes and restarts against one database, as a state machine |
| `BulkGaps.dfy` | which waves a crash can leave a gap after |
| `BulkPhones.dfy` | which runs the database accepts: the unique phone column and the foreign keys |
| `BulkKeys.dfy` | what a database that checks foreign keys ever stores |
| `BulkExample.dfy` | the first two waves of a run, on which the flush goes wrong |
| `BulkSeeder.dfy` | the main loop in place, each wave a step of that state machine |
| `Workbook.dfy` | the shipment-book importer (`import-orders-workbook.ts`) |
| `RayCast.dfy` | `isLand` over the reals (`hero-globe.tsx`) |
| `Cluster.dfy` | the worker supervisor (`main.ts`) |
| `CountryNames.dfy` | the normal form of a printed country name and its look-up |
| `LongestMatch.dfy`, `DialCodes.dfy`, `Navigation.dfy` | longest-prefix look-ups: phone splitting, navigation and breadcrumbs |
| `Milestones.dfy`, `QuietWindow.dfy`, `TrackingHistory.dfy`, `Typewriter.dfy` | tracking milestones, notification quiet window, recent look-ups, hero typewriter |

## How to read the model

Code that updates variables step by step is a method or a class here, proved against a function of its
inputs; the properties are then lemmas about that function. A tariff carrier's regular expressions are
predicates of a configuration, so the tariff results hold for every carrier. JavaScript numbers are
reals or integers. Functions of the platform (`Number` on a rate cell, letter case, the instant a time
string denotes, the financial year of a date) are parameters. Random draws are arbitrary values of their
range. A random UUID is the next value of a counter, which models only that no two are alike.

## What turned out otherwise than documented

Where the code does not do what its own comments say, the code is modelled and the exact condition is proved.

- `flush` is documented as parents-first, "a crash mid-flush leaves no dangling references". Three fields
  point forward in the write order: a quote's selected option, a quote's order and a pickup request's
  order (`BulkFlush.OnlyThreeFieldsPointForward`, `BulkFlush.InterruptedFlushDangles`). The migrations
  declare these as immediate foreign keys, so a database that has them refuses the flush of exactly those
  waves in which a customer committed to a quote (`BulkFlush.AcceptedExactlyWhenNothingCommitted`,
  `BulkExample.FirstWaveRefused`), and no history of runs ever stores a shipment or an invoice there
  (`BulkKeys.KeyedHistoryStoresNoOrder`). Every result about runs therefore says what it is in both cases,
  keys checked and not.
- The gapless series survives every completed wave, but not every crash: batches of a thousand are sent
  six together, and a later one can land without an earlier one. Whether a wave is exposed can be told
  from its invoices' years in date order before it is flushed. No crash of it can leave a year with a gap
  exactly when no two of the year's invoices fall in one run of six thousand but in different thousands
  of it, or when the database refuses its customers or quotes before any invoice is written
  (`BulkGaps.CrashLeavesNoGapExactly`). Otherwise some crash loses a number, and no later run ever fills it
  (`BulkGaps.LostForGood`). The calibration wave is too small for that, the second wave is not
  (`BulkExample.SecondWaveLeavesGap`).
- Phones are numbered in sequence so that they never collide, which holds within one process: on phones
  alone, its waves are all accepted exactly when no phone stored before lies in the range they take up
  (`BulkPhones.ProcessAcceptedExactly`). Every process starts the range again, so once any wave with a
  customer is stored, no later process gets a wave with a customer in, unless the tables are reset
  (`BulkPhones.SecondRunRefused`).
- Milestones do not depend on the order of the scans as instants; as printed text they do, exactly when
  two earliest scans of one milestone print the same instant differently (`Milestones.OrderIndependentExactly`).
- A tariff whose printed bounds are out of order still leaves no hole: coverage needs only the chaining
  of bounds (`SlabLookup.ChainCovers`), while uniqueness needs them to rise.

## Model

| member | source | states |
|---|---|---|
| SheetWeights.BandIgnoresPrintedLower | backend/scripts/import-tariffs.ts:99-105 | a band printed with any lower numeral parses to the band from the previous upper bound to the printed upper one, priced per kilogram |
| SheetWeights.NumeralPrefixOfConcat | backend/scripts/import-tariffs.ts:99-106 | a numeral is read whole in front of anything that cannot extend it, so the greedy match needs no backtracking |
| SheetWeights.NumeralDenotes | backend/scripts/import-tariffs.ts:99-109 | a numeral, with its point left out and ten times as large for each digit behind it, is the whole number its digits write |
| SheetWeights.BandExactly | backend/scripts/import-tariffs.ts:99-105 | a cell is read as a band exactly when it prints two numerals around a dash, blanks anywhere between and at most a unit behind; it runs from the previous bound to the printed upper one, per kilogram |
| SheetWeights.FlatExactly | backend/scripts/import-tariffs.ts:106-109 | a cell is read as a flat step exactly when it is a numeral alone, up to that number |
| TariffSheet.CarrierParser.ReadZoneHeader | backend/scripts/import-tariffs.ts:129-138 | the zone columns are replaced exactly when the row names a zone, else kept |
| TariffSheet.ZoneHeaderExactly | backend/scripts/import-tariffs.ts:129-138 | a zone stands at a column exactly when the trimmed cell of that very index names it, and columns come in rising order |
| TariffSheet.CarrierParser.ReadCountryHeader | backend/scripts/import-tariffs.ts:161-173 | the column pairs become exactly those the header row spells out |
| TariffSheet.CountryPairsExactly | backend/scripts/import-tariffs.ts:166-171 | a country cell is paired with the nearest zone cell to its right, and nothing else is paired |
| TariffSheet.CarrierParser.ReadListings | backend/scripts/import-tariffs.ts:175-188 | appends the row's listings under the pairs in force and reports whether there were any |
| TariffSheet.ListingsInOrder | backend/scripts/import-tariffs.ts:177-184 | the listings come in the order of their column pairs |
| TariffSheet.CarrierParser.ReadRates | backend/scripts/import-tariffs.ts:206-210 | the rates of a row under the zone columns in force |
| TariffSheet.RatesExactly | backend/scripts/import-tariffs.ts:206-210 | a zone has a rate exactly when one of its columns holds a positive number, and the last such column decides it |
| TariffSheet.RateInExactly | backend/scripts/import-tariffs.ts:208-209 | a cell holds a rate exactly when what it denotes without its commas is a positive number |
| TariffSheet.CommasGo | backend/scripts/import-tariffs.ts:208 | commas, and only commas, are taken out before the number is read |
| TariffSheet.FirstRuleDecides | backend/scripts/import-tariffs.ts:190-196 | a marker opens a section of the type that the first rule matching the first cell names, and none when no rule matches |
| TariffSheet.RowKindExactly | backend/scripts/import-tariffs.ts:153-197 | which rows are blank, a rate header, a country header, a country row or a section marker, in this order of precedence, said in terms of their cells |
| TariffSheet.RowContents | backend/scripts/import-tariffs.ts:156-223 | what each kind of row carries: its columns, pairs, listings, type, or a slab with the bound, type and rates in force |
| TariffSheet.CarrierParser.ReadWeightRow | backend/scripts/import-tariffs.ts:198-223 | a weight row adds one slab and moves the bound, or counts as ignored, or is passed over, and changes nothing else |
| TariffSheet.CarrierParser.ReadRow | backend/scripts/import-tariffs.ts:151-224 | one iteration, in place, is the state machine's step for every state and row |
| TariffSheet.ParseCarrier | backend/scripts/import-tariffs.ts:120-237 | the loop's slabs, listings and ignored count are those of the state machine over all rows |
| TariffSheet.RunIsFolded | backend/scripts/import-tariffs.ts:151-224 | the state after any rows is what the kinds of those rows, one after the other, make of the initial one |
| TariffSheet.ColumnsInForce | backend/scripts/import-tariffs.ts:123-138 | the zone columns in force are those of the last rate header |
| TariffSheet.PairsInForce | backend/scripts/import-tariffs.ts:146-173 | the column pairs in force are those of the last country header |
| TariffSheet.SectionInForce | backend/scripts/import-tariffs.ts:190-196 | the shipment type in force is that of the last section marker |
| TariffSheet.IgnoredAreNotes | backend/scripts/import-tariffs.ts:200-214 | the ignored rows are exactly those whose weight cannot be read or that price no zone |
| TariffSheet.SlabHasRow | backend/scripts/import-tariffs.ts:216-223 | every slab is what one row contributes under the header, section and bound in force there, in row order |
| TariffSheet.ListingsExactly | backend/scripts/import-tariffs.ts:175-188 | a row yields a listing exactly when some pair of columns in force holds it with both cells filled |
| TariffSheet.ListingHasRow | backend/scripts/import-tariffs.ts:175-188 | every listing of a sheet is one a single row carries under the column pairs in force there, in row order with none left out |
| SlabLookup.SectionsChain | backend/scripts/import-tariffs.ts:190-223 | the slabs are the concatenation of one chain per section marker: each starts at zero, each lower bound is the previous upper one across ignored rows, each slab has its section's type |
| SlabLookup.ChainCovers | backend/scripts/import-tariffs.ts:101-109 | a weight under any upper bound of a chain is covered, whatever order the bounds come in |
| SlabLookup.FindSlab | backend/scripts/seed-bulk.ts:462-465 | finds a slab exactly when one covers the weight, and then one that does |
| SlabLookup.PricedZoneNeverMisses | backend/scripts/seed-bulk.ts:450-481 | for every sheet, a zone priced in every slab of a type finds a slab for exactly the weights from zero to the type's greatest bound |
| SlabLookup.TwoMatchOnlyAtEdge | backend/scripts/seed-bulk.ts:462-465 | with rising bounds two slabs hold one weight exactly when they are neighbours and it is their shared edge |
| SlabLookup.FindTakesLowest | backend/src/modules/pricing/pricing-engine.service.ts:225-232 | with rising bounds the look-up returns the lowest slab reaching the weight, the lower one at an edge |
| SlabLookup.GapFreeExactlyWhenAlwaysPriced | backend/scripts/import-tariffs.ts:341-343 | a rising tariff finds a slab for every weight up to its last bound exactly when the zone is priced in every slab |
| SlabLookup.SingleSectionCard | backend/scripts/import-tariffs.ts:341-343 | the card of a type with one section, for a zone priced throughout, is that section's whole chain |
| TariffStore.ResolveListings | backend/scripts/import-tariffs.ts:274-292 | no country twice, and a country is placed exactly in the zone of its first listing whose zone has rates |
| TariffStore.RetiredActive | backend/scripts/import-tariffs.ts:355-361 | retiring a card's slabs leaves it none active and every other card its active ones |
| TariffStore.RetiredRows | backend/scripts/import-tariffs.ts:355-361 | exactly the quoted rows of the card survive, switched off and otherwise unaltered; other cards' rows are untouched |
| TariffStore.TariffStore.DeleteUnquotedAndRetire | backend/scripts/import-tariffs.ts:355-361 | in place: no active slab is left on the card, every quoted slab survives, foreign keys stay valid |
| TariffStore.TariffStore.ReplaceSlabs | backend/scripts/import-tariffs.ts:352-379 | the card's active rates become the parsed ones whatever they were, other cards keep theirs |
| TariffStore.ReplacedExactly | backend/scripts/import-tariffs.ts:341-379 | a card the sheet prices gets one rate for each slab that prices it, in order, with the slab's bounds, the zone's own price and the slab's rate type; any other card keeps its rates |
| TariffStore.TariffStore.ApplyCard | backend/scripts/import-tariffs.ts:341-379 | a card without a parsed slab is left alone, otherwise it is replaced |
| TariffStore.TariffStore.AssignCountries | backend/scripts/import-tariffs.ts:383-398 | the country map is overwritten by exactly the assignments to known zones |
| TariffStore.TariffStore.Apply | backend/scripts/import-tariffs.ts:317-403 | after an import every card of the carrier's zones that the sheet prices holds exactly the sheet's rates, bounds, price and rate type alike; all other cards and countries are unchanged, quoted slabs survive |
| TariffStore.TariffStore.ApplyTwice | backend/scripts/import-tariffs.ts:17-18 | applying a tariff twice gives the active rates and assignments of applying it once |
| TariffStore.PlacedWhereResolved | backend/scripts/import-tariffs.ts:384-397 | a country is written to a zone exactly when it was resolved to it and the zone is one of the carrier's |
| TariffStore.ImportedCardNeverMisses | backend/scripts/seed-bulk.ts:450-481 | sheet to table: an imported card's active rates cover exactly the weights from zero to the type's greatest bound |
| TariffStore.ImportedPrice | backend/scripts/seed-bulk.ts:460-481 | sheet to price: after an import a card has a rate covering a weight at a price and rate type exactly when a slab of the sheet prices that weight so for its zone |
| BulkGenerator.TrackingChain | backend/scripts/seed-bulk.ts:974-986 | a beginning of a journey, as far as its age allows: whole past twelve days, short of at most the delivery past eight, of one or two stages past five, else of its first three or two |
| BulkGenerator.JourneyStages | backend/scripts/seed-bulk.ts:976-979 | the stages of a journey in their order, each leg one, no other stage twice |
| BulkGenerator.JourneyEnds | backend/scripts/seed-bulk.ts:1009-1011 | any tracked beginning starts at the pick-up and ends delivered exactly when it is the whole journey |
| BulkGenerator.Wave.AddEvents | backend/scripts/seed-bulk.ts:1078-1109 | one event per stage, the shipment's, the first five to forty hours after the booking and each later one four to thirty hours after the one before |
| BulkGenerator.Wave.BookShipment | backend/scripts/seed-bulk.ts:1006-1076 | appends one order, one shipment under the next sequence number and one tracking number that refer to each other |
| BulkGenerator.Wave.MakeOrderAndShipment | backend/scripts/seed-bulk.ts:988-1142 | an order is completed exactly when its shipment is delivered, always past twelve days of age and never within eight, with its chain of events |
| BulkGenerator.Wave.QueueInvoice | backend/scripts/seed-bulk.ts:1186-1266 | at most one invoice is queued, for this order, customer and date, and none for a cancelled order |
| BulkGenerator.Wave.GenerateManualQuote | backend/scripts/seed-bulk.ts:853-967 | adds one sound entry of the customer's: an accepted quote comes with its order, shipment and pickup, any other with none of these |
| BulkGenerator.Wave.Decline | backend/scripts/seed-bulk.ts:619-728 | an uncommitted, committed or requested quote whose selected option is its own and that has no order |
| BulkGenerator.Wave.Accept | backend/scripts/seed-bulk.ts:730-846 | an accepted quote of the customer's and a completed request that name the one order made with them, billed within the hours the draws allow |
| BulkGenerator.Wave.GenerateQuoteChain | backend/scripts/seed-bulk.ts:543-846 | every outcome of every draw adds one sound entry and nothing else |
| BulkGenerator.Wave.GenerateWave | backend/scripts/seed-bulk.ts:513-541 | every wave is coherent, takes the shipment numbers and the phones right after the process's counters; its owners are its own customers and three returning ones for every five as far as the pool goes, each owns a quote and nobody else does, and there are one to seven quotes an owner, billed within the wave's window |
| BulkBook.PostKeepsCoherent | backend/scripts/seed-bulk.ts:543-846 | a sound entry keeps the whole wave coherent |
| BulkBook.PapersExactly | backend/scripts/seed-bulk.ts:543-967 | in a wave, a quote handed over or accepted on the priced path has exactly one pickup request, its customer's, COMPLETED under the quote's order exactly when accepted; one accepted after pricing by hand has exactly one pickup, under its order; no other quote has either |
| BulkBook.PostKeepsQuotes | backend/scripts/seed-bulk.ts:795-801 | accepted quotes, requests and pickups keep naming orders of the wave, selected options stay with their quotes |
| BulkBook.PostKeepsPapers | backend/scripts/seed-bulk.ts:693-928 | an entry brings its quote the request or pickup its status calls for, and no other quote any |
| BulkBook.PostKeepsOrders | backend/scripts/seed-bulk.ts:1051-1109 | orders, shipments, tracking numbers and event chains stay in one-to-one correspondence, numbered without a gap |
| BulkBook.PostKeepsInvoices | backend/scripts/seed-bulk.ts:1199-1204 | every queued invoice bills a non-cancelled order of its customer, no order twice |
| BulkBook.PostKeepsApart | backend/scripts/seed-bulk.ts:543-967 | no two rows of a collection share an identifier |
| BulkChecks.CurrentStatusIsLatest | backend/scripts/verify-bulk-seed.ts:121-132 | the event with the latest time is unique and carries the shipment's current status |
| BulkChecks.CoherentWavePasses | backend/scripts/verify-bulk-seed.ts:108-139 | every generated wave meets the check's status, latest-event and cancelled-order conditions, and its shipment numbers differ |
| BulkChecks.OneShipmentPerOrder | backend/scripts/seed-bulk.ts:1051-1061 | each order has exactly one shipment, at most one invoice and at most one quote |
| BulkChecks.WaveJoinsTables | backend/scripts/verify-bulk-seed.ts:86-139 | the tables all waves leave together meet those conditions: a wave added to tables that pass leaves tables that pass |
| BulkChecks.VerifyNumbers | backend/scripts/verify-bulk-seed.ts:61-106 | no failure is counted exactly when each year is 1..n under its saved counter, no number is printed twice, and shipment numbers are distinct and under theirs |
| BulkChecks.NumbersPrintApart | backend/scripts/verify-bulk-seed.ts:86-88 | when every year is checked, the series conditions already make all printed invoice numbers distinct |
| BulkChecks.WholeWavePasses | backend/scripts/verify-bulk-seed.ts:61-106 | right after a whole wave those conditions hold of the stored numbers and the saved counters |
| BulkChecks.WholeWavePrintsApart | backend/scripts/verify-bulk-seed.ts:86-88 | right after a whole wave no two stored invoices print the same number |
| InvoiceSeries.SortSorts | backend/scripts/seed-bulk.ts:1279 | the sort puts every pending invoice, once, in date order |
| InvoiceSeries.WaveCounters.NumberInvoices | backend/scripts/seed-bulk.ts:1273-1309 | in place: invoices and counters are those of numbering the sorted invoices year by year |
| InvoiceSeries.NumbersFollowCounter | backend/scripts/seed-bulk.ts:1280-1287 | each year's new numbers are those right after its counter, in order, and the counter ends at the last |
| InvoiceSeries.NumbersRiseWithDate | backend/scripts/seed-bulk.ts:1268-1272 | within a wave a year's numbers follow the invoice date |
| InvoiceSeries.WaveKeepsGapless | backend/scripts/verify-bulk-seed.ts:71-77 | storing a wave's invoices in any order keeps each year's series 1..counter, each once |
| InvoiceSeries.AggregatesDecideGapless | backend/scripts/verify-bulk-seed.ts:74-76 | minimum 1, maximum n and n distinct among n rows hold exactly when the numbers are 1..n, each once |
| InvoiceSeries.VerifySeries | backend/scripts/verify-bulk-seed.ts:61-84 | the check's loop counts no failure exactly when every year is gapless and its counter covers it |
| InvoiceSeries.GaplessCounts | backend/scripts/verify-bulk-seed.ts:74-82 | a year stored as 1..top has exactly top invoices, which is what the check compares its counter with |
| InvoiceSeries.PrintedExactly | backend/src/modules/invoices/gst.ts:38-45 | after the company and the year stand at least five digits that denote the sequence number, with no leading zero past five |
| InvoiceSeries.PrintedNumberDecodes | backend/src/modules/invoices/gst.ts:38-45 | two printed invoice numbers are equal only for the same year and sequence number, also past five digits |
| BulkFlush.FlushCollection | backend/scripts/seed-bulk.ts:370-385 | the nested slicing loops make exactly the writer's groups of the buffer |
| BulkFlush.GroupsAreBuffer | backend/scripts/seed-bulk.ts:367-385 | those groups in order are the buffer, every row once, at most a thousand rows a batch and at most six batches in flight |
| BulkFlush.RowIsAt | backend/scripts/seed-bulk.ts:370-385 | every row is at its place in its batch and group: the thousands before it fill whole batches, six of them a group |
| BulkFlush.SmallWriteIsAtomic | backend/scripts/seed-bulk.ts:373-385 | a buffer of at most a thousand rows is written whole or not at all, wherever the write stops |
| BulkFlush.InterruptedIsPart | backend/scripts/seed-bulk.ts:373-385 | whatever an interrupted write leaves was in the buffer, no row more often than there |
| BulkFlush.WholeFlushResolves | backend/scripts/seed-bulk.ts:341-358 | every reference of a coherent wave names a row of the wave or an earlier customer |
| BulkFlush.ForwardFieldsExactly | backend/scripts/seed-bulk.ts:622-846 | the references the write order gets wrong are each selected option and each order that a quote names, and each order that a request names |
| BulkFlush.OnlyThreeFieldsPointForward | backend/scripts/seed-bulk.ts:341-358 | in the write order a reference points forward exactly when it is one of three fields |
| BulkFlush.InterruptedFlushDangles | backend/scripts/seed-bulk.ts:341-358 | wherever a flush stops, only those three can hang, none once the orders are written, and each hangs while its target collection is not started |
| BulkFlush.AcceptedExactlyWhenNothingCommitted | backend/prisma/migrations/20260906000000_reconcile_production_schema/migration.sql:97-100 | under immediate foreign keys a wave's flush is accepted exactly when no quote of it is committed to, that is, names an option or an order |
| BulkRun.LiftCovers | backend/scripts/seed-bulk.ts:1404-1415 | start-up counters are at least every stored invoice number and every saved counter |
| BulkRun.HighestCovers | backend/scripts/seed-bulk.ts:1416-1418 | the start-up shipment counter is at least every stored shipment number |
| BulkRun.StepKeeps | backend/scripts/seed-bulk.ts:1434-1491 | start-up, a whole wave, a crash at any point and a stop each keep stored numbers distinct and a running process past them |
| BulkRun.NoHistoryReissues | backend/scripts/seed-bulk.ts:1404-1418 | through any history of runs, crashes and restarts no invoice or shipment number is stored twice |
| BulkRun.WholeWaveStaysGapless | backend/scripts/seed-bulk.ts:1470-1474 | a whole wave leaves every gapless year gapless with the counter at its last number |
| BulkRun.LiftResumesAt | backend/scripts/seed-bulk.ts:1410-1415 | where 1..top is stored and the saved counter lags or agrees, start-up resumes exactly at top |
| BulkRun.StopStaysGapless | backend/scripts/seed-bulk.ts:1474 | stopping after a wave leaves a year that the next start-up resumes without a gap |
| BulkRun.CoherentIsGenerated | backend/scripts/seed-bulk.ts:543-846 | a generated wave has no invoice without a shipment and no shipment without a committed quote |
| BulkRun.RefusedLandsNothing | backend/scripts/seed-bulk.ts:370-385 | a wave whose phones or quotes the database refuses stores no shipment, invoice or counter |
| BulkGaps.InterruptionLeadsExactly | backend/scripts/seed-bulk.ts:370-385 | every interruption of the invoices' write leaves a year a beginning of its numbers exactly when no group holds two batches with the year |
| BulkGaps.UnsplitExactly | backend/scripts/seed-bulk.ts:370-385 | that is so exactly when no two of the year's invoices, in date order, share a run of six thousand but not of one thousand |
| BulkGaps.CrashGaplessExactly | backend/scripts/seed-bulk.ts:1410-1415 | a given crash leaves a year gapless exactly when the invoices that landed are the first numbers after the counter |
| BulkGaps.CrashLeavesNoGapExactly | backend/scripts/seed-bulk.ts:370-385 | told before the flush, on databases with and without key checks: no crash of a wave can leave a gap in a year exactly when its phones or quotes are refused or no group splits the year |
| BulkGaps.SmallWaveLeavesNoGap | backend/scripts/seed-bulk.ts:370-385 | a wave of at most a thousand invoices can leave no gap, wherever it crashes |
| BulkGaps.LostForGood | backend/scripts/seed-bulk.ts:1404-1415 | a number once passed over is never stored by any later history of runs, crashes and restarts |
| BulkExample.BilledBookIsCoherent | backend/scripts/seed-bulk.ts:730-846 | for any customers, owners and counters, a wave in which every quote is accepted and billed is coherent, and committed to |
| BulkExample.SecondWaveLeavesGap | backend/scripts/seed-bulk.ts:1424-1475 | from an empty database without key checks, a calibration wave of 60 customers, then a wave of 400 and 60 returning ones of which the second batch of invoices lands alone: exactly 61 to 1060 are missing, and the year is never gapless again |
| BulkExample.FirstWaveRefused | backend/scripts/seed-bulk.ts:1429-1441 | with key checks that same first wave cannot be stored, though every phone is free |
| BulkKeys.KeyedHistoryStoresNoOrder | backend/prisma/migrations/20260906000000_reconcile_production_schema/migration.sql:97-100 | with key checks no history of generated waves, crashes and restarts ever stores a shipment or an invoice |
| BulkPhones.ProcessAcceptedExactly | backend/scripts/seed-bulk.ts:402-413 | the waves of one process are all accepted exactly when no phone stored before them lies in the range they take up together and, with key checks, none of them is committed to |
| BulkPhones.SecondRunRefused | backend/scripts/seed-bulk.ts:402-413 | after any whole wave with a customer and any history, a process's first wave with a customer is refused and stores nothing but perhaps customers, none when they fit one batch |
| BulkSeeder.Seeder.constructor | backend/scripts/seed-bulk.ts:1395-1418 | the process starts with the lifted counters, an empty pool and the phone counter at zero, above every stored shipment number |
| BulkSeeder.Seeder.Generate | backend/scripts/seed-bulk.ts:513-541 | one wave in memory: phones and shipment numbers right after the counters, and the new customers added to the pool that later waves draw from |
| BulkSeeder.Seeder.InsertCustomers | backend/scripts/seed-bulk.ts:373-385 | the customers are taken exactly when no phone of theirs is stored; if not, a part of the write without stored phones is left |
| BulkSeeder.Seeder.Flush | backend/scripts/seed-bulk.ts:370-385 | everything else lands and the counters are saved exactly when the phones are free and, with key checks, no quote is committed to; otherwise nothing changes but customers |
| BulkSeeder.Seeder.RunWave | backend/scripts/seed-bulk.ts:1470-1474 | one wave of the main loop is a whole-wave step of the state machine exactly when its phones are free and, with key checks, nothing is committed to, else a crash step |
| BulkSeeder.Seeder.Run | backend/scripts/seed-bulk.ts:1461-1491 | for any plan of waves: it goes through exactly when the plan's phones are free and, with key checks, no wave is committed to, and then no order is stored; no number is stored or printed twice, gapless years stay gapless, the rows pass the check, and after one whole wave so do the numbers and saved counters |
| Workbook.CleanIsTrimmed | backend/scripts/import-orders-workbook.ts:54-58 | a cleaned cell has no outer white space |
| Workbook.CleanExactly | backend/scripts/import-orders-workbook.ts:54-58 | a cell is blank when it is one of four printed words in any case, else its trimmed text |
| Workbook.CleanSheetHasCleanNames | backend/scripts/import-orders-workbook.ts:180-208 | consignor names read through the cleaning are stable under trimming, as their second look-up needs |
| Workbook.IndianPhoneUnifies | backend/scripts/import-orders-workbook.ts:103-109 | a mobile printed with and without its country code comes to one phone, different mobiles to different ones |
| Workbook.OtherNumbersStay | backend/scripts/import-orders-workbook.ts:103-109 | any number but a mobile with or without its country code is kept as written |
| Workbook.DigitsAreDialable | backend/scripts/import-orders-workbook.ts:103-109 | a phone made of digits never reads like a placeholder |
| Workbook.SlugExactly | backend/scripts/import-orders-workbook.ts:115-121 | a slug keeps letters and digits, writes what stands between two of them as one dash and has none at an end |
| Workbook.ConsignorsExactly | backend/scripts/import-orders-workbook.ts:208 | the consignors are the names printed, each once, in the order of their first rows |
| Workbook.PhoneForExactly | backend/scripts/import-orders-workbook.ts:277 | the phone taken for a name is that of the first row of that very consignor that has one, and none exactly when no such row has one |
| Workbook.AddressForExactly | backend/scripts/import-orders-workbook.ts:291-293 | and so is the address |
| Workbook.ByNameHolds | backend/scripts/import-orders-workbook.ts:271-273 | a name known to the table is its last customer whose trimmed name has the same capitals |
| Workbook.ResolveCustomers | backend/scripts/import-orders-workbook.ts:262-300 | the loop's customers, name map and failure are those of settling the distinct consignors in order |
| Workbook.SettleCases | backend/scripts/import-orders-workbook.ts:274-300 | settling a name adds at most one customer, forgets nothing, and keeps phones unique and both maps in step with the table |
| Workbook.RunInStep | backend/scripts/import-orders-workbook.ts:266-300 | after any names no two customers share a phone and the maps agree with the table |
| Workbook.FiledRight | backend/scripts/import-orders-workbook.ts:274-300 | over the whole run: a name the table knows keeps its customer; a new one ends under the customer with the first phone printed beside that very name, or, when none is, with the placeholder of its own slug |
| Workbook.AddedAreConsignors | backend/scripts/import-orders-workbook.ts:285-299 | every customer the run adds is a consignor of the sheet with its own phone and address, and the one that consignor is filed under |
| Workbook.ResumeSettles | backend/scripts/import-orders-workbook.ts:9-11 | stopped after any number of names and run again, the import ends in the same customers, maps and outcome as an uninterrupted run |
| Workbook.FailsExactlyOnClash | backend/scripts/import-orders-workbook.ts:285-297 | the import fails exactly when two new phoneless consignors share a slug or one's placeholder is already stored |
| Workbook.EveryConsignorSettled | backend/scripts/import-orders-workbook.ts:316-323 | after a run without failure every row with a consignor finds its customer |
| Workbook.ImportOrders | backend/scripts/import-orders-workbook.ts:302-385 | the loop imports what the row-by-row function does, and counts exactly the orders added and the rows skipped |
| Workbook.PresentExactlyWhen | backend/scripts/import-orders-workbook.ts:309-323 | a reference and provider are stored in the end exactly when they were before or some row with that tracking number, or else bill, and that vendor, or else ICL, has a customer |
| Workbook.OrderIsFor | backend/scripts/import-orders-workbook.ts:305-350 | an imported order's customer is that of the consignor of the first row with its reference and provider whose consignor has one |
| Workbook.ImportedOnce | backend/scripts/import-orders-workbook.ts:309-315 | no pair is imported twice and stored orders are kept |
| Workbook.ResumeOrders | backend/scripts/import-orders-workbook.ts:9-11 | interrupted after any row and run again, the orders are those of an uninterrupted run, rows gone through being skipped |
| Workbook.ResumeImport | backend/scripts/import-orders-workbook.ts:9-11 | the whole import, stopped anywhere among the consignors or the rows, or failed, and run again, ends in the customers, orders and outcome of a run never interrupted |
| Workbook.SecondRunDoesNothing | backend/scripts/import-orders-workbook.ts:9-11 | a second run of the whole import creates nobody, imports nothing and skips every row |
| RayCast.CrossesBySide | frontend/components/marketing/hero-globe.tsx:98 | the quotient test is the sign of the point's side of the edge, up or down |
| RayCast.CrossesEitherWay | frontend/components/marketing/hero-globe.tsx:98 | an edge is crossed or not whichever end comes first |
| RayCast.InRing | frontend/components/marketing/hero-globe.tsx:94-99 | the two-index loop computes the parity of crossed edges around the ring |
| RayCast.IsLand | frontend/components/marketing/hero-globe.tsx:92-103 | true exactly when some outline has the point inside |
| RayCast.RotationInvariant | frontend/components/marketing/hero-globe.tsx:95 | the answer does not depend on the starting vertex |
| RayCast.ReversalInvariant | frontend/components/marketing/hero-globe.tsx:95 | nor on the direction |
| RayCast.OutsideBoxIsOutside | frontend/components/marketing/hero-globe.tsx:94-99 | no point outside a ring's bounding box is inside |
| RayCast.ChordSplits | frontend/components/marketing/hero-globe.tsx:94-99 | cutting a ring along a chord splits its parity between the halves |
| RayCast.TriangleMeaning | frontend/components/marketing/hero-globe.tsx:91-99 | for a triangle the answer is true strictly within and false strictly without |
| RayCast.InsideMeansOddlyCovered | frontend/components/marketing/hero-globe.tsx:91-99 | for every ring, off its fan's lines, inside means strictly within an odd number of the fan's triangles |
| Cluster.Primary.OnSignal | backend/src/main.ts:126-133 | only the stopping flag changes |
| Cluster.Primary.OnExit | backend/src/main.ts:134-144 | forks a replacement, or counts down and leaves at zero once stopping |
| Cluster.Primary.Handle | backend/src/main.ts:126-144 | the handlers, in place, are the transitions of the protocol |
| Cluster.Supervised | backend/src/main.ts:116-144 | in every interleaving the count is running plus unhandled exits, forks are one per death before the first signal and none after, and the primary leaves exactly with the last worker |
| Cluster.NothingCountedOutBeforeStop | backend/src/main.ts:118-121 | before a stop, running workers plus unhandled exits equal the configured number, and a stop can come at any time |
| Cluster.StopDrains | backend/src/main.ts:123-133 | after a stop some step is always left until the primary leaves, each uses up one of finitely many, and more signals change nothing |
| CountryNames.NormaliseIsNormal | backend/scripts/country-matching.ts:71-79 | every normal form is lower-case words of letters and digits with single blanks between and none outside |
| CountryNames.NormaliseIdempotent | backend/scripts/country-matching.ts:71-79 | normal forms are fixed, and normalising twice is normalising once |
| CountryNames.LettersStay | backend/scripts/country-matching.ts:71-79 | the letters and digits of a normal form are, in order, the lower-cased ones of the name outside its closed parentheses |
| CountryNames.RunsAreBlanks | backend/scripts/country-matching.ts:75-78 | whatever stands between two letters or digits is one blank, and what stands outside them is nothing |
| CountryNames.WordStays | backend/scripts/country-matching.ts:76-78 | a word of ASCII letters and digits is itself in lower case, capitals included |
| CountryNames.FirstClosed | backend/scripts/country-matching.ts:73-74 | the first parenthesis that is closed goes, with all up to the first closing one after it, and leaves a blank |
| CountryNames.NoneClosed | backend/scripts/country-matching.ts:73-74 | without such a parenthesis nothing is taken out |
| CountryNames.IsoFromExactly | backend/scripts/country-matching.ts:81-85 | the code read is exactly the two capitals in parentheses that only white space follows |
| CountryNames.LookupHolds | backend/scripts/country-matching.ts:92-100 | the maps' keys are exactly the listed codes and normal forms, each with the last country listed under it |
| CountryNames.ResolvesExactlyWhenListed | backend/scripts/country-matching.ts:102-113 | a name resolves exactly when its code, printed or by alias, or its normal form is listed, to the last country listed under it, the code first |
| CountryNames.SameFormSameCountry | backend/scripts/country-matching.ts:109-113 | spellings with one normal form and no printed code resolve alike |
| LongestMatch.FindsFirstLongest | frontend/lib/dial-codes.ts:286-288 | sort-by-length-then-find returns the first of the longest matches, and nothing only when nothing matches |
| DialCodes.MatchedIsFirstLongest | frontend/lib/dial-codes.ts:285-288 | the country found has the longest listed dial code prefixing the value, the first listed with it |
| DialCodes.NothingMatched | frontend/lib/dial-codes.ts:278-292 | a number without a plus, or under no listed code, is shown as of IN, by its digits or whole but for the plus, and formatting what is shown keeps every digit stored |
| DialCodes.DigitsExactly | frontend/lib/dial-codes.ts:266-270 | the digits kept are those of the parts in turn, the ten of them and nothing else |
| DialCodes.SplitRejoins | frontend/lib/dial-codes.ts:278-294 | dial code and national part rebuild the value, and formatting undoes splitting exactly when the national part is a non-empty run of digits |
| DialCodes.JoinSplitsBack | frontend/lib/dial-codes.ts:266-294 | a printed country and number are recovered exactly when no longer listed code prefixes the number and the country is first with its code |
| Navigation.FindsTheLongest | frontend/lib/nav-config.ts:187-191 | for distinct addresses the item found is the unique longest one that is the path or is followed by a slash in it |
| Navigation.SegmentsExactly | frontend/components/layout/topbar.tsx:21-22 | each slash ends a segment, and what holds no slash is one unless it is empty |
| Navigation.BreadcrumbsComplete | frontend/components/layout/topbar.tsx:19-22 | the item's segments followed by the breadcrumbs are exactly the path's segments |
| Milestones.NextKnownTime | frontend/lib/tracking-milestones.ts:57-64 | the early-return loop finds the nearest later time |
| Milestones.DeriveMilestones | frontend/lib/tracking-milestones.ts:32-55 | the loops compute the derivation over the sorted scans |
| Milestones.ScanIsEarliest | frontend/lib/tracking-milestones.ts:24-26 | the scan taken for a status is an earliest of that status, and none is taken only when there is none |
| Milestones.DerivedIsShown | frontend/lib/tracking-milestones.ts:49-54 | each milestone shows its earliest scan, else that of the nearest later scanned milestone, else nothing |
| Milestones.BackFilled | frontend/lib/tracking-milestones.ts:8-64 | the four milestones by name, for any scans: each shows its own earliest scan, else the nearest after it that prints a time on the way from PICKED_UP over IN_TRANSIT and OUT_FOR_DELIVERY to DELIVERED |
| Milestones.ReachedIsPrefix | frontend/lib/tracking-milestones.ts:27-30 | the milestones reached are a prefix of the journey |
| Milestones.OrderDoesNotMatter | frontend/lib/tracking-milestones.ts:34-42 | any order of the same scans shows the same instants |
| Milestones.OrderIndependentExactly | frontend/lib/tracking-milestones.ts:35-42 | any order shows the same text exactly when earliest scans that tie print alike |
| Milestones.ExceptionsChangeNothing | frontend/lib/tracking-milestones.ts:3-7 | removing every scan outside the journey, wherever it stands, changes no milestone, as text |
| QuietWindow.ServiceWorker.Show | frontend/public/sw.js:71-86 | in place: silent exactly within the window carried by the tag's notification, which is replaced and no other |
| QuietWindow.SoundsOpenWindows | frontend/public/sw.js:67-86 | over any pushes the sounds are exactly the openings of successive windows, and the notification carries the last |
| QuietWindow.SoundsAreSpacedAndCover | frontend/public/sw.js:67-74 | sounds are pushes ten minutes apart, and every push falls in the ten minutes some sound opened |
| QuietWindow.DismissalStartsOver | frontend/public/sw.js:72-74 | dismissing the notification forgets its window |
| TrackingHistory.Browser.Remember | frontend/lib/tracking-history.ts:27-39 | in place, whatever junk is stored and whether or not the write succeeds |
| TrackingHistory.Browser.RememberAll | frontend/lib/tracking-history.ts:17-39 | after any look-ups, some writes refused, the list is the last eight distinct accepted numbers, newest first |
| TrackingHistory.ReadExactly | frontend/lib/tracking-history.ts:17-25 | whatever is stored, its non-empty strings count, in order, and the first eight are read |
| TrackingHistory.TruncationLosesNothing | frontend/lib/tracking-history.ts:32 | cutting the list at every step gives what cutting the whole history's list once would |
| TrackingHistory.RecentByLastUse | frontend/lib/tracking-history.ts:27-32 | the uncut list holds exactly the numbers used, in falling order of last use |
| Typewriter.TicksStaySound | frontend/components/marketing/typing-text.tsx:14-26 | under any changes of the motion setting the text never outruns the word |
| Typewriter.WordTakes | frontend/components/marketing/typing-text.tsx:21-25 | a word takes exactly 2 * length + 2 ticks, on that word throughout, its text growing letter by letter and, after one tick whole, shrinking again |
| Typewriter.Cycles | frontend/components/marketing/typing-text.tsx:22-24 | the animation repeats with the sum of those |
| Typewriter.ReducedSettles | frontend/components/marketing/typing-text.tsx:16-20 | with reduced motion one tick shows the whole word and no later tick changes anything |

## Left out

- Prices, GST splits and rounding: floating-point formulas over fields no other row depends on, in the generator as in the integrity check.
- Options of a generated quote are only their identifiers and their quote: which providers price a parcel is an arbitrary number of options.
- BulkGenerator.Wave.GenerateWave: what is proved holds whatever is drawn; how likely a value is, or that each value of a range is drawn at all, is not stated.
- Notifications, audit logs and API request logs of the generator: no other row or check refers to them; the write order is modelled for the ten collections that remain.
- The customers' e-mail addresses, a second unique column built from another counter of the process: only the phones decide acceptance here.
- `reset`, the size-driven number of waves and the calibration wave's size: a run is any number of waves of any sizes, so termination of the size loop is not modelled.
- TariffStore.TariffStore.Apply: the tables' generated identifiers for zones and rate cards are represented by the unique keys they stand for; slabs, which have no natural key, keep theirs.
- The order in which zones are sorted before they are written: it only decides the order of independent table writes.
- Workbook.ResolveCustomers: the customers table is read in the order rows were added, though the source asks for no order; with two stored customers of one name another order could pick the other one. The customer's password, consent and creation time are not kept.
- Workbook.ImportOrders: an order's dates, sequence and raw metadata are not kept; providers are their codes; pickup partners, which nothing later depends on, are not modelled.
- Parsing the workbook's cells beyond names and phones (dates, scientific notation, shifted vendor columns): string conversions of the platform.
- QuietWindow.SoundsOpenWindows: pushes are handled one at a time; two handlers interleaved between reading and showing could both sound.
- QuietWindow.ServiceWorker.Show: untagged pushes stack on screen without being looked up again, so they are not recorded.
- Milestones.DeriveMilestones: times are taken to denote instants; how a sort orders unreadable times is not modelled.
- TrackingHistory.Browser.Remember: the JSON text itself is represented by its parsed value.
- The remote-area importer: its replace-by-source step and its slices of two thousand rows repeat what is proved of the tariff tables and of the batched writer.
- Role filtering of navigation, the dial-code table's contents and the outlines' coordinates: finite data, or a plain filter.
- The number of workers read from the environment, signal delivery and worker shutdown: a worker may die at any time.
- Ray-casting in floating point: the results are about real coordinates.
