# Receivables dashboard core, modelled in Dafny

This project models the pure logic inside a small receivables ("cartera") dashboard written in Python with pandas. It states, and proves, what that logic promises. There are three groups:

* **Snapshot consolidation** (`procesar_todo`, module `Maestro`, with the two aging taxonomies in `Franjas`):
  * successive invoice extracts are merged by the invoice identity key. The model keys on the five key fields themselves. The source glues their texts together, and the Findings section shows where that merges different lines;
  * each key keeps one line from a latest-dated extract and its first-appearance date;
  * each line is PENDIENTE if its key is in the newest extract, RECUPERADA otherwise, and gets a recovery date;
  * days past due are computed per state, and are NaN when the due date is blank;
  * each client's maximum pending days past due is propagated and re-bucketed.
* **Collection management** (`calcular_gestion`):
  * `Gestion`: the activity log, the best-contact deduplication keyed on (analyst, day, client), and the per-analyst and per-day statistics;
  * `GestionClientes`: the pending portfolio joined with each client's latest outcome, the inactivity ranges, the unique-client coverage counts, the per-bucket summary and the detail lines;
  * `GestionRecaudo`: the day's ranking, the attribution of payments to analysts and the collections ranking;
  * `GestionResumen`: everything assembled into the report.
* **Report shaping** in the web layer:
  * `Informe` models `procesar_informacion`: PENDIENTE selection, the city filter, the overdue-balance rule, the headline figures, the aging donut, and the two city rankings. `Ranking` holds the group-sum, descending sort and top-ten-plus-"Otras" collapse these use.
  * `Detalle` models the `detalle_analisis` view: the month's budget, the day-by-day series and their running totals, the zero-filled per-client day vectors, the "yesterday" cut-off, the guarded ratios and the per-client table.

Shared modules:
* `Common` holds optional cells, the money sums and the guarded percentage.
* `Text` holds Python's `str.strip`/`str.upper` and the client-code clean-up.

Conventions:
* Dates are integer day numbers. `Detalle` is the exception: it needs year, month and day, so it uses a `Date` record.
* Money is `real`, except in `Maestro`, where an invoice's amount is an integer field of the consolidation key. A cell that pandas would read as NaN/NaT is `None`.
* "Today", file modification times and file contents are parameters.

The two reports decide "pending" differently:
* the portfolio report upper-cases the state and does not trim it;
* the collection report trims it and does not upper-case it.

`Informe.PendingCaseRulesDiffer` and `Informe.PendingBlankRulesDiffer` exhibit a state that each report accepts and the other rejects.

## Model

| member | source | states |
|---|---|---|
| Common.Percent | app.py:195 | a share is 0 when the whole is not positive, otherwise share × whole = part × 100 |
| Common.PercentAdditive | procesador_gestion.py:230-233 | the shares of two parts add up to the share of their sum |
| Common.PercentBounds | app.py:195 | a part between 0 and a non-negative whole has a share between 0 and 100 |
| Common.Filter | app.py:61 | a boolean-mask selection holds exactly the rows passing the mask, and its length is the number of rows passing it |
| Common.SumByFilter | app.py:187-188 | summing the selected rows equals summing the column masked to 0 outside the selection |
| Common.SumByMono | app.py:188 | a pointwise larger column has a larger sum |
| Text.Strip | procesador_gestion.py:33 | `strip()` returns a middle slice with only whitespace cut from both ends, trimmed at both ends, empty exactly for all-blank text |
| Text.StripTrimmed | procesador_gestion.py:33 | stripping already trimmed text changes nothing |
| Text.Upper | app.py:61 | `upper()` keeps the length, maps every character and leaves no lower-case letter |
| Text.UpperIdempotent | procesador_gestion.py:120 | upper-casing twice equals upper-casing once |
| Text.DropPointZero | procesador_gestion.py:42 | the `\.0$` replacement removes a final ".0" (also before a final newline) and otherwise leaves the text alone |
| Text.DropPointZeroUndoesSuffix | procesador_gestion.py:42 | removing the suffix undoes appending ".0" to any text |
| Text.CleanCode | procesador_gestion.py:42-43 | a cleaned client code is trimmed |
| Text.CleanCodeExamples | procesador_gestion.py:42-43 | a clean code is kept as is, and the float rendering "123.0" of a code cleans back to "123" |
| Franjas.FranjaCyres | procesador_maestro.py:7-17 | the Cyres bucket is defined for every integer and is one of the ten labels |
| Franjas.FranjaCyresIsBand | procesador_maestro.py:7-17 | the Cyres label is the band of the thresholds -1, 0, 1, 2, 5, 8, 15, 22, 31, and its leading digit is the band number |
| Franjas.FranjaCyresMonotone | procesador_maestro.py:7-17 | more days past due never give a lower Cyres bucket number |
| Franjas.FranjaCoca | procesador_maestro.py:19-25 | the Coca-Cola bucket is defined for every integer and is one of the six labels |
| Franjas.FranjaCocaIsBand | procesador_maestro.py:19-25 | the Coca-Cola label is the band of the thresholds 1, 8, 15, 22, 31, and its leading digit is the band number |
| Franjas.FranjaCocaMonotone | procesador_maestro.py:19-25 | more days past due never give a lower Coca-Cola bucket number |
| Franjas.CocaCurrentIsCyresNotOverdue | procesador_maestro.py:7-25 | Coca-Cola's "current" bucket is exactly Cyres' first three buckets |
| Franjas.BandBounds | procesador_maestro.py:12-16 | a value's band lies between the threshold at or below it and the next one above it |
| Maestro.DayOfMonotone | procesador_maestro.py:45 | a later modification time never gives an earlier file date |
| Maestro.FromFlatten | procesador_maestro.py:37-49 | every row of the concatenated frame comes from some extract and carries that extract's date |
| Maestro.InFlattenAt | procesador_maestro.py:37-49 | every line of every extract is in the concatenated frame with its extract's date |
| Maestro.DistinctKeys | procesador_maestro.py:56 | the keys kept are pairwise different, and they are exactly the keys occurring in the frame |
| Maestro.Latest | procesador_maestro.py:50-56 | the line kept for a key is a row with that key and no row with that key has a later date |
| Maestro.Earliest | procesador_maestro.py:53 | the first appearance is the date of some row with the key and no row with the key is older |
| Maestro.LatestIndex | procesador_maestro.py:59 | the newest extract has the largest modification time, and it is the first such extract |
| Maestro.Record | procesador_maestro.py:53-93 | a consolidated line: kept data, first appearance, state iff in newest extract, recovery, REVERSO "NO", days past due by state (NaN for a blank due date), both buckets |
| Maestro.CyresBucket | procesador_maestro.py:7-17 | a NaN days-past-due cell falls through every comparison into "9- Mayor a 30"; a figure gets its Cyres bucket |
| Maestro.CocaBucket | procesador_maestro.py:19-25 | a NaN days-past-due cell falls through every comparison into "5- Mayor a 30"; a figure gets its Coca-Cola bucket |
| Maestro.MoraUntil | procesador_maestro.py:83-87 | days past due exist exactly when the due date does, and then due date + days = the end date |
| Maestro.PendingMax | procesador_maestro.py:96 | the largest days past due among a client's pending lines that have a figure (NaN skipped): None exactly when there is none, otherwise attained and an upper bound |
| Maestro.MaxMora | procesador_maestro.py:96-97 | MAX_MORA bounds every pending figure of the client and is attained by one, or is 0 when no pending line has a figure |
| Maestro.ProcesarTodo | procesador_maestro.py:33-35 | consolidation yields nothing exactly when there is no extract |
| Maestro.FlattenKeys | procesador_maestro.py:49 | a key occurs in the concatenated frame iff some extract contains it |
| Maestro.RecordAt | procesador_maestro.py:53-66 | output line i is the consolidated line of the i-th distinct key |
| Maestro.LatestFromSnapshot | procesador_maestro.py:50-56 | the kept line comes from an extract with the latest date among the extracts containing the key |
| Maestro.EarliestFromSnapshot | procesador_maestro.py:53 | the first appearance is the date of an extract containing the key, the smallest such, and not after the kept line's date |
| Maestro.EarliestBeforeLatest | procesador_maestro.py:53-56 | the first appearance is not after the kept line's date |
| Maestro.OneRecordPerKey | procesador_maestro.py:56 | after consolidation there is exactly one line per key, and the keys are exactly those seen in some extract |
| Maestro.KeptFromLatestSnapshot | procesador_maestro.py:50-56 | every kept line comes from a latest-dated extract containing its key |
| Maestro.FirstAppearanceIsMinimum | procesador_maestro.py:53-56 | PRIMERA_APARICION is the minimum extract date over the extracts containing the key, and at most the kept line's date |
| Maestro.EstadoIffInLatest | procesador_maestro.py:59-66 | ESTADO is PENDIENTE iff the key is in the newest extract; every key of the newest extract has a PENDIENTE line |
| Maestro.RecoveryAndReverso | procesador_maestro.py:70-77 | RECUPERACION is present exactly for RECUPERADA lines and equals their kept date; REVERSO is always "NO" |
| Maestro.DiasMoraByEstado | procesador_maestro.py:80-93 | DIAS_MORA is present iff the due date is; it is today minus due date when pending and recovery minus due date when recovered; buckets follow it, and a blank due date gets "9- Mayor a 30" and "5- Mayor a 30" |
| Maestro.PropagateMaxMoraFacts | procesador_maestro.py:95-100 | every line gets its client's maximum pending days past due (or 0), and Franja Top General is its Coca-Cola bucket |
| Maestro.PropagateFields | procesador_maestro.py:95-100 | propagation keeps each line's invoice, state and days past due, sets MAX_MORA to the client's pending maximum (or 0) and Franja Top General to its Coca-Cola bucket |
| Maestro.MaxMoraIsPendingMaximum | procesador_maestro.py:95-100 | in the output, MAX_MORA bounds all the client's pending days past due (NaN skipped) and is attained or 0, and Franja Top General is its Coca-Cola bucket |
| Maestro.PendingKeyFromNewestDay | procesador_maestro.py:56-66 | a key of the newest extract is kept from a line dated the newest extract's day |
| Maestro.PendingKeptFromNewestDay | procesador_maestro.py:56-66 | every PENDIENTE line carries the newest extract's date |
| Maestro.NothingWithoutSnapshots | procesador_maestro.py:34-35 | with no extract nothing is consolidated |
| Maestro.TextKeyCollides | procesador_maestro.py:41-43 | the glued-text ID_S gives two different invoice lines the same key |
| Maestro.KeyOfSeparates | procesador_maestro.py:41-43 | the structured key is equal exactly when all five key fields are equal |
| Ranking.AddRow | app.py:102 | adding a row to grouped bars adds its amount to its label's bar, or opens a new bar, and keeps labels distinct |
| Ranking.GroupSum | app.py:102 | `groupby().sum()` gives one bar per label, the same labels and total, each bar the sum of its label's rows |
| Ranking.Insert | app.py:102 | inserting into a descending list keeps it descending and adds exactly the new bar |
| Ranking.SortDesc | app.py:102 | the sort is descending, a permutation of its input, and keeps the total |
| Ranking.CollapseTop10 | app.py:103-109 | more than ten bars become the first ten plus "Otras" with the rest's sum; ten or fewer stay; the total is kept |
| Ranking.CollapseKeepsLargest | app.py:103-107 | after the collapse of a descending list the ten shown bars are at least every gathered bar, and "Otras" is the total minus theirs |
| Ranking.TopRanking | app.py:102-109 | a ranking keeps the grand total and has at most eleven bars; the first ten bars carry distinct labels of the rows, each holding that label's sum, largest first |
| Ranking.TopRankingFewLabels | app.py:108-109 | with at most ten labels every label has its own bar holding its label's sum |
| Ranking.TopRankingManyLabels | app.py:103-107 | with more than ten labels the ranking has eleven bars, the last one "Otras" holding the total minus the ten named bars, and no label left out of those ten sums to more than the tenth |
| Ranking.SortedGroups | app.py:102 | the grouped and sorted bars are descending, one per label, each holding its label's sum, with the rows' total |
| Ranking.UnshownBelowTenth | app.py:102-104 | in a descending list of label sums, a label outside the first ten sums to no more than the tenth |
| Ranking.TotalConcat | app.py:105-107 | the total of two lists of bars is the sum of their totals |
| Gestion.ForAnalyst | procesador_gestion.py:27-29 | "Todos" keeps the whole log; any other name keeps exactly that analyst's rows |
| Gestion.Analyzed | procesador_gestion.py:57 | the analyst statistics read every row except the excluded analyst's |
| Gestion.Priority | procesador_gestion.py:60 | contact priority is 1 exactly for EFECTIVO, 2 exactly for NO EFECTIVO, 3 otherwise |
| Gestion.FindKey | procesador_gestion.py:61 | the position of the kept row with a key, or -1 exactly when no kept row has it |
| Gestion.MinPriorityLowerBound | procesador_gestion.py:60-61 | no row of a key has a priority below the key's minimum |
| Gestion.BestContacts | procesador_gestion.py:60-61 | deduplication keeps one row per (analyst, day, client), exactly the keys of the log, each with the key's minimal priority |
| Gestion.BestContactsMinimal | procesador_gestion.py:60-61 | the kept row of a key has priority no larger than any row of the log with that key |
| Gestion.BestKeepsUsersAndDays | procesador_gestion.py:61-76 | deduplication loses no analyst and no day |
| Gestion.Analysts | procesador_gestion.py:63-70 | one line per analyst other than the excluded one: Clientes_Unicos_Dia is the number of distinct (day, client) keys the analyst logged, Efectivos the number of those keys with some effective row, the attempts their raw row count; 1 ≤ Clientes_Unicos_Dia, Efectivos ≤ Clientes_Unicos_Dia ≤ attempts |
| Gestion.BestCounts | procesador_gestion.py:60-70 | after deduplication, rows selected by a key condition are as many as such keys in the raw log, and the effective ones as many as the keys with an effective raw row |
| Gestion.AnalystBounds | procesador_gestion.py:63-68 | per analyst, effective kept rows ≤ kept rows ≤ raw rows, and at least one kept row |
| Gestion.AnalystRatios | procesador_gestion.py:69-70 | intensity is at least 1 and the effectiveness percentage lies in 0..100 |
| Gestion.Timeline | procesador_gestion.py:73-78 | one line per parsed day: Gestionados is the number of distinct (analyst, client) keys logged that day, Efectivos the number of those with some effective row; at least one worked and Efectivos ≤ Gestionados |
| Gestion.DayBounds | procesador_gestion.py:73-76 | per day, effective kept rows ≤ kept rows, and at least one |
| Gestion.TimelineShares | procesador_gestion.py:78 | the day's effectiveness percentage lies in 0..100 |
| GestionClientes.PendingCartera | procesador_gestion.py:32-42 | the pending portfolio has as many rows as pass the trimmed-state test, and its rows are exactly the pending input rows with their codes cleaned (so all pending, with trimmed codes) |
| GestionClientes.LastDay | procesador_gestion.py:83 | a client's latest date is None exactly when no row of it has a date, otherwise attained and the largest |
| GestionClientes.LastContactRow | procesador_gestion.py:83 | the outcome taken is from a row of the client with an outcome, and no row with an outcome is dated later |
| GestionClientes.Master | procesador_gestion.py:83-84 | the left join keeps every pending row in order, with no outcome/date exactly when the client has none |
| GestionClientes.Clasificar | procesador_gestion.py:88-96 | the inactivity range is one of the seven labels, "1. Sin Gestión" exactly when there is no date |
| GestionClientes.ClasificarIsBand | procesador_gestion.py:88-96 | with a date, the range is the band of the thresholds 1, 2, 6, 11, 16 over the days elapsed |
| GestionClientes.ClasificarMonotone | procesador_gestion.py:88-96 | a more recent activity date never gives a higher inactivity range |
| GestionClientes.FirstOf | procesador_gestion.py:100 | the first row of a client is the client's and no earlier row is |
| GestionClientes.UniqueClients | procesador_gestion.py:100 | `drop_duplicates` keeps each client's first row once, and every client |
| GestionClientes.DistinctClientsCount | procesador_gestion.py:108 | with one row per client the row count is the client count |
| GestionClientes.CoverageOf | procesador_gestion.py:108-110 | total is the number of distinct clients; worked and effective are the numbers of clients whose kept (first) row has some outcome, resp. the effective one; effective ≤ worked ≤ total, and not worked = total − worked |
| GestionClientes.CountUniqueClients | procesador_gestion.py:100 | counting the rows left by `drop_duplicates` on the client column by a condition counts the clients whose first row meets it |
| GestionClientes.FranjaSummary | procesador_gestion.py:112-115 | one line per bucket present; Total, Gestionados and Efectivo are the numbers of clients whose first row is in the bucket, and of those with some outcome, resp. the effective one; Efectivo ≤ Gestionados ≤ Total and Sin_Gestion = Total − Gestionados |
| GestionClientes.FranjaBounds | procesador_gestion.py:112-115 | per bucket, reached ≤ worked ≤ clients, and at least one client |
| GestionClientes.FranjaNotWorkedNonNegative | procesador_gestion.py:114 | Sin_Gestion lies between 0 and Total |
| GestionClientes.NormalizeContact | procesador_gestion.py:119-120 | an empty or blank outcome reads "PTE / SIN CONTACTO", any other is trimmed and upper-cased; never blank, never lower-case |
| GestionClientes.NormalizeContactIdempotent | procesador_gestion.py:119-120 | normalising a normalised outcome changes nothing |
| GestionClientes.ManagementState | procesador_gestion.py:130 | ESTADO is GESTIONADO iff the outcome is present |
| GestionClientes.BlankContactIsManaged | procesador_gestion.py:119-130 | a blank outcome shows "PTE / SIN CONTACTO" yet counts as GESTIONADO |
| GestionClientes.Detail | procesador_gestion.py:117-135 | one detail line per joined row, with its code and balance, state iff outcome present, and inactivity range |
| GestionRecaudo.TodaysActivity | procesador_gestion.py:143-144 | today's rows are exactly the selected log's rows dated today |
| GestionRecaudo.DailyRanking | procesador_gestion.py:147-162 | one line per analyst active today except the excluded one: distinct clients, attempts and effective rows of that analyst today counted; 1 ≤ clients ≤ attempts, effective ≤ attempts |
| GestionRecaudo.DailyTable | procesador_gestion.py:148-159 | the ranking lines count each analyst's distinct clients, rows and effective rows, and carry the effective share of attempts, between 0 and 100 |
| GestionRecaudo.DailyBounds | procesador_gestion.py:148-157 | an active analyst's line has 1 ≤ distinct clients ≤ attempts and effective ≤ attempts |
| GestionRecaudo.ClientsOfBound | procesador_gestion.py:149 | a non-empty set of rows has between 1 and as many distinct clients as rows |
| GestionRecaudo.DailyRankingSelected | procesador_gestion.py:139-159 | with an analyst selected the ranking shows at most that analyst, and nobody when it is the excluded one |
| GestionRecaudo.Claimant | procesador_gestion.py:184-188 | the contact credited: none iff no non-excluded contact has the payment's client and day; an effective one whenever one exists |
| GestionRecaudo.Attribute | procesador_gestion.py:184-189 | a payment is never credited to the excluded analyst; unmatched payments, and in this model payments whose date did not parse, go to "Sin Gestión" |
| GestionRecaudo.AttributePrefersEffective | procesador_gestion.py:185-186 | when an effective contact matches, the payment goes to an analyst with a matching effective contact |
| GestionRecaudo.AttributeClaimed | procesador_gestion.py:186-189 | when a contact matches, the payment goes to the analyst of a matching contact |
| GestionRecaudo.AttributionByKey | procesador_gestion.py:186-189 | payments with the same (client, date) key go to the same analyst |
| GestionRecaudo.Credits | procesador_gestion.py:176-189 | credited amounts are positive and never credited to the excluded analyst |
| GestionRecaudo.CreditsTotal | procesador_gestion.py:177-192 | crediting distributes exactly the positive payments' total, which is non-negative |
| GestionRecaudo.RecaudoRanking | procesador_gestion.py:195-208 | the collections ranking is descending, one bar per credited analyst, excluded analyst absent, total = collected, each bar its analyst's sum |
| GestionRecaudo.Participation | procesador_gestion.py:205 | each analyst's participation is their share of the global total, 0 when that total is not positive |
| GestionRecaudo.ParticipationTotal | procesador_gestion.py:205 | the participations add up to the share of the ranking's total |
| GestionRecaudo.RecaudoSharesSumTo100 | procesador_gestion.py:192-205 | with money collected the participations add up to 100 |
| GestionResumen.CleanLog | procesador_gestion.py:43 | cleaning the log replaces each client code by its cleaned form and changes nothing else |
| GestionResumen.CleanLogKeepsCleanCodes | procesador_gestion.py:43 | a log whose codes are already trimmed and without ".0" is left unchanged |
| GestionResumen.CleanPayments | procesador_gestion.py:172 | cleaning the payments replaces each client code by its cleaned form and changes nothing else |
| GestionResumen.CleanPaymentsKeepsCleanCodes | procesador_gestion.py:172 | payments whose codes are already trimmed and without ".0" are left unchanged |
| GestionResumen.KpisOf | procesador_gestion.py:224-238 | the headline counts: clients = distinct pending codes, documents = pending rows, worked = pending clients whose latest outcome exists, effective = those whose latest outcome is effective; clients ≤ documents (both 0 together), effective ≤ worked ≤ clients, sweep + not worked = 100, reached + not reached = sweep, donut slices |
| GestionResumen.MasterCoverage | procesador_gestion.py:83-110 | over the join of the pending portfolio with the latest activity per client, the coverage counts are the distinct clients, those with some outcome and those whose latest outcome is effective |
| GestionResumen.KpiShares | procesador_gestion.py:230-233 | the headline percentages lie in 0..100 and partition the clients |
| GestionResumen.DocumentsPerClient | procesador_gestion.py:226 | documents per client is at least 1 when there are clients |
| GestionResumen.MasterClients | procesador_gestion.py:100-108 | the joined rows have exactly the pending portfolio's clients |
| GestionResumen.PortfolioClientsBound | procesador_gestion.py:108 | a portfolio has no more distinct clients than rows, and some if it has rows |
| GestionResumen.CalcularGestion | procesador_gestion.py:23-238 | documents = pending rows = detail lines; the excluded analyst appears in no ranking; no payments file gives empty collections; collections total = collected; participations total 100 |
| GestionResumen.RecaudoShares | procesador_gestion.py:205 | participations total 100 whenever money was collected |
| Informe.Selected | app.py:60-74 | the report rows are exactly the pending rows, and only those of the selected city when a city other than "Todas" is chosen |
| Informe.OverdueColumn | app.py:97-99 | the overdue total is the balance of the rows at least one day past due |
| Informe.OverdueBounded | app.py:187-188 | with non-negative balances the overdue total lies between 0 and the portfolio total |
| Informe.KeyedEntries | app.py:83 | the grouped rows' labels are exactly the non-empty keys of the rows |
| Informe.KeyedTotal | app.py:83 | a grouped chart adds up exactly the amounts of the rows that have a group |
| Informe.KeyedLabelSum | app.py:83 | what a group collects is the amount summed over that group's rows |
| Informe.TruncateTowardZero | app.py:65 | `astype(int)` truncates toward zero |
| Informe.DistinctNits | app.py:64-66 | the client count is the number of distinct truncated NITs (a blank NIT counting as 0), at most the row count and at least 1 when there are rows |
| Informe.DistinctNitsSnoc | app.py:64-66 | one more row raises the count by one exactly when no earlier row has its NIT |
| Informe.NitBound | app.py:197 | a column of NITs has no more distinct values than rows, and some if it has rows |
| Informe.RecaudoWithinCollected | app.py:86-94 | the headline collections figure never exceeds the total the collections ranking distributes, and equals it when every amount is positive |
| Informe.ProcesarInformacion | app.py:50-206 | the report combines the selected rows' headline figures, donut and city charts with the full city list and the payments total |
| Informe.HeadlineOf | app.py:187-197 | total and overdue balance of the selected rows, delinquency 0 for a non-positive total and otherwise the overdue share, client count = distinct NITs of the rows |
| Informe.Donut | app.py:76-83 | one slice per aging bucket of the chosen view, distinct, each holding the balance of that bucket's rows, together the balance of the rows with a bucket |
| Informe.CityChart | app.py:101-119 | a city chart keeps the total of the rows with a city and has at most eleven bars; the first ten are distinct cities of the rows, each holding that city's amount, largest first |
| Informe.ManyCitiesOthers | app.py:103-107 | with more than ten cities the chart has eleven bars, "Otras" last, holding the rows' total minus the ten named cities |
| Informe.ManyCitiesUnshown | app.py:102-107 | with more than ten cities, no city gathered into "Otras" has a larger amount than the tenth bar |
| Informe.MorosidadBounded | app.py:195 | with non-negative balances the delinquency rate lies in 0..100 |
| Informe.NarrowedToOneCity | app.py:72-119 | narrowed to a city, each city chart has at most one bar, named after that city |
| Informe.FewCitiesAllShown | app.py:108-109 | with at most ten cities every city has its own bar |
| Informe.PendingCaseRulesDiffer | app.py:61 | the state "pendiente" is pending for this report but not for the collection report |
| Informe.PendingBlankRulesDiffer | app.py:61 | the state " PENDIENTE" is pending for the collection report but not for this one |
| Detalle.DaysInMonth | app.py:254 | every month has 28 to 31 days |
| Detalle.YearLength | app.py:254 | the month lengths add up to 366 in leap years and 365 otherwise |
| Detalle.MonthRows | app.py:272-276 | the month's budget rows are exactly the rows due in the current year and month |
| Detalle.DayTotalsSum | app.py:296-311 | a day series adds up to the amounts of the items dated within days 1..last |
| Detalle.DayTotalsZeroFilled | app.py:309-311 | a day nothing falls on holds 0 in the series |
| Detalle.CumSum | app.py:313-314 | the single-pass running total equals the prefix sums, and its last entry is the series total |
| Detalle.PrefixSumsSteps | app.py:313-314 | the first running total is the first amount, and consecutive running totals differ by the day's amount |
| Detalle.PrefixSumsMonotone | app.py:313-314 | running totals of non-negative amounts never decrease |
| Detalle.DailySeries | app.py:296-321 | the chart covers every day 1..last of the month, with budget and payments per day and their running totals |
| Detalle.BudgetSeriesEndsAtBudget | app.py:281-313 | with real due dates the budget's running total ends at the month's budget |
| Detalle.IncomeSeriesEndsAtMonthPayments | app.py:303-314 | the payments' running total ends at what was paid in the current month, not at the collections figure |
| Detalle.BudgetVectors | app.py:331-336 | one vector per client with a dated budget row, each with one entry per day of the month |
| Detalle.PaymentVectors | app.py:324-329 | one vector per client with a dated payment, each with one entry per day of the month |
| Detalle.BudgetVectorEntries | app.py:331-336 | a budget vector's entry is what the client has due that day |
| Detalle.BudgetVectorZeroFilled | app.py:331-336 | a day on which the client has nothing due holds 0 |
| Detalle.BudgetVectorTotal | app.py:331-336 | with real due dates a client's budget vector adds up to the client's budget for the month |
| Detalle.PaymentVectorEntries | app.py:324-329 | a payment vector's entry is what the client paid on that day number, of any month |
| Detalle.DiaAyer | app.py:339-340 | the cut-off is yesterday's day number, except on the first of the month, when it is 1 |
| Detalle.ActualBudgetBounds | app.py:342-344 | with non-negative amounts the budget to date lies between 0 and the month's budget and grows with the cut-off |
| Detalle.ActualBudgetWholeMonth | app.py:342-344 | a cut-off at or after every due day takes in the whole month's budget |
| Detalle.Ratio | app.py:370-371 | the table ratio is 0 for a zero whole and otherwise ratio × whole = part × 100 |
| Detalle.RatioVersusPercent | app.py:350-371 | the table ratio and the headline percentage agree on positive wholes; only the headline turns a negative whole into 0 |
| Detalle.TableMatchesVectors | app.py:331-361 | a table line's budget to date equals the client's day vector accumulated up to the cut-off day |
| Detalle.ClientTable | app.py:353-376 | one line per (client, name) pair of the month's budget |
| Detalle.ActualWithinMonthly | app.py:359-366 | for a client written under one name, the budget to date never exceeds the monthly budget when amounts are non-negative |
| Detalle.KpisOf | app.py:279-395 | budget, collections, deviation, effectiveness (only for a positive budget), and the "as of yesterday" figures; an absent budget file leaves the later figures at 0, while collections "as of yesterday" always equal the collections |
| Detalle.KpisMatchChart | app.py:279-350 | the month's budget figure is the last running total of the daily budget chart, and with non-negative amounts the budget to date lies between 0 and it |
| Detalle.DetalleAnalisis | app.py:247-382 | the view: its figures, and with a payments file the daily chart, vectors and table; without one, everything empty |

## Left out

- File reading, globbing, modification-time lookups, Excel/CSV writing, Flask routing, templates and uploads. The extract files, their dates, "today" and the file contents are parameters. The payments file and the budget file are `Option`s.
- The blanket `try/except` paths, with one exception. In the detail view, an absent budget file makes `df_filtrado['Fecha_Vencimiento']` fail after the vectors are built. `Detalle.KpisOf` models the figures this leaves at 0, and the final assignment after the handler that sets collections "as of yesterday" to the collections on every path. Any other column-missing failure is not modelled.
- Rounding of percentages (`round(1)`, including `No_Efec_P`) and of collected amounts (`round(0)`). The figures are exact reals.
- GestionRecaudo.RecaudoRanking: the bars are exact sums. The source rounds each analyst's `Total_Recaudado` to whole units (procesador_gestion.py:199), so its bars need not add up exactly to the collected total, as this member and `GestionResumen.CalcularGestion` state for the exact sums.
- GestionResumen.CalcularGestion: its collections total and its participations adding to 100 hold for the unrounded figures; after `round(0)` and `round(1)` the source's figures may be off by the rounding.
- pandas date parsing: strings to dates, `dayfirst`, and the fallback formats. A date cell is a parsed day or `None`.
- The aging-matrix crosstab and its totals row. The composition, administrator and client pivot tables of the portfolio report. The collections time chart. These are grouping-for-display with no property beyond group sums.
- The missing-column fallbacks: no ESTADO column, "Sin Clasificar" buckets, the "ADMINISTRADO POR" rename, the name-column guess in the detail table, and the `'monto'` branch. Every column is assumed present.
- The output order of rows, where it is only a display sort: consolidation output, analyst and daily rankings (maps here), the detail table sorted by monthly budget, and city lists sorted by name.
- Maestro.ProcesarTodo: lines are merged by the structured key, the corrected definition from the Findings section. As written, the source merges any two lines whose glued key texts coincide, as `Maestro.TextKeyCollides` shows. The model does not reproduce those merges.
- GestionRecaudo.Claimant: a payment whose date did not parse is never claimed. In the source its lookup key is NaN, and so is the key of every contact with an unparsed date, of any client. Whether pandas then matches the two, and which of several such contacts the dictionary keeps, depends on its NaN handling and on the unstable order of the single-column priority sort. The model does not reproduce that.
- GestionRecaudo.Attribute: for the same reason, a payment whose date did not parse is credited to "Sin Gestión". The source may credit it to the analyst of some unparsed-date contact of another client.
- Maestro.KeptFromLatestSnapshot: it only promises that the kept line comes from a latest-dated extract. When two extracts share a date, the source's unstable sort picks among them arbitrarily. The model takes the later one, but the contract does not say so.
- Ranking.SortDesc: it does not pin the order of bars with equal amounts. pandas' sort gives no guarantee there either.
- Detalle.Ratio: a negative payment total against a zero budget gives −∞ in the source, since only +∞ is replaced by 0. The model returns 0.
- Text.Upper: it models upper-casing for ASCII and Latin-1 letters, plus ÿ and µ. Other Unicode case mappings, such as ß becoming "SS", are not modelled.
- Informe.DistinctNits: the NIT count reads the NIT cell as a number. NIT text that does not parse as a number would make the source fail, and that is not modelled.
- Money columns summed by `groupby().sum()` are read as numbers, with an unreadable cell counting 0. Text columns concatenated by `sum` are not modelled.
- Client codes are compared as the text the model receives. The `str(cod)` rendering of numeric codes, such as "123.0" after NaN promotion, is not modelled.
- The duplicated daily-ranking block and the debug re-read of the budget file at the end of the detail view. Both are dead code, and `procesador_pagos.py`, which only concatenates files, is not part of this model.

## Findings

| source | as written | input that shows it | evidently intended | confidence | as-written member | corrected member |
|---|---|---|---|---|---|---|
| procesador_maestro.py:41-43 | ID_S glues client code, reference, document date, due date and amount as text, with no separator | client "1" with reference "23", and client "12" with reference "3", with the same dates and amount, get the same ID_S. Two different invoice lines would be merged into one | one key per distinct (client, reference, document date, due date, amount) | medium, not executed | Maestro.TextKeyCollides | Maestro.KeyOfSeparates |
