# Verified model of the metric compiler, the autopilot and their neighbours

A Dafny 4.11 model of the parts of the back end whose correctness is least visible in the code:
a formula compiler that works on a half-built output, an hour-by-hour allocation engine over
shared nested maps, an incremental billing export, calendar windows, an in-place group-and-sum,
three goroutine protocols, a Boolean evaluator that returns skip counts, and a batch that splits
itself. `dafny verify dfyconfig.toml` checks the whole project.

| files | what they model |
|---|---|
| `FormulaSyntax`, `SqlReader`, `FormulaCompiler`, `FormulaTranslation`, `FormulaMeaning`, `FormulaSplitter`, `FormulaText` | calculated-metric formulas: tokens, the compiler to `SAFE_DIVIDE` SQL, a reader for that SQL, what both mean, and the way from the text a user types to both |
| `HourlyUsage`, `LineUnits`, `HourlyShares`, `UsageMaps`, `Autopilot`, `AutopilotGroup`, `AutopilotResults`, `OrderPricing` | the autopilot run over a group of orders, its maps on the heap, and its pricing |
| `BillingExport` | the hourly billing rows of one customer over a month of runs |
| `Calendar`, `TimeWindows` | dates, and the report and budget windows |
| `RowAggregation`, `RowAggregationResults` | `aggregateRows` as a GROUP BY |
| `Weights`, `ConcurrentJobs`, `QueryCollection`, `RecommendationFanOut`, `RecommendationWorker`, `RecommendationChunks` | goroutine protocols under every interleaving |
| `BooleanFormula`, `BooleanMeaning`, `BooleanNesting` | `solveFormula` |
| `AutomaticBatch` | the self-splitting write batch |
| `GoMaps`, `Wrappers` | map iteration; Option and Result |

How the program is represented:

- `float64` is `real`: the properties are about the algorithms, not about rounding errors.
- Loops that update variables are methods with loops; each is proved equal to a function, and
  the results are proved about that function. Where the program changes objects in place
  (nested maps, a table, a batch, a slice) the model does so on the heap.
- A Go string of the formula compiler is a sequence of SQL symbols, so an element of
  `formulaStringArr` is such a sequence and comparing it with `"("` is comparing it with a
  one-symbol sequence. `SAFE_DIVIDE(` is one symbol, and so is the SQL text of a variable.
- Days, hours and times are numbers where the program formats them as strings. A Go `map` is
  iterated in an arbitrary order.
- An order's autopilot record is part of the order; a null `utilization` stands for a missing
  record as well as for a record without utilization.
- A protocol is a state with enabled actions; a run is any sequence of them.
- Clocks, database answers and fetched reports are parameters. Error texts are shortened.

Where the code does not do what one would expect of it, the model follows the code:

- A formula with a minus sign right after a minus sign compiles to text in which SQL sees a
  comment, and the tokeniser takes `1..` for a number, which SQL does not. `MetricFormulaMeaning`
  says that these are the only exceptions; `DoubleMinusIsLost` and `TwoDotsAreLost` are the
  smallest instances.
- "Last 1 unit including the current one" covers two units (query_time_settings.go:57-63;
  `LastOneMonthIsTwo`). The count is right exactly from 2 on: `LastWithCurrentCountsFromTwo`.
- Row keys run the texts of the key columns together, so `("a", "bc")` and `("ab", "c")` are
  summed into one row (`KeysCollide`); the rows left are those of a GROUP BY exactly when this
  does not happen (`GroupsByColumnsIff`).
- A billing run that finds its saving unchanged trusts the hours it does not write. It leaves the
  view of a full rewrite exactly when these hours hold that saving already (`RunIsRewrite`), and
  exactly one row for every hour of its days when moreover there was no row of a later hour
  (`RunLeavesUniform`). When days never fall both hold (`IncrementalRefinesRewrite`); after days
  5, 3 and 6 the first does not, although no later day was ever exported
  (`FallingDaysMixSavings`). For runs in any order `IncrementalIsRewriteIff` is the exact
  condition.
- With a limit of zero, `RunConcurrentJobsOnCollection` never returns unless the collection is
  empty (`ReturnsIff`, `ZeroLimitWaits`).
- `GetRecommendations` forgets the error of every chunk but the last one
  (`GetRecommendationsComplete`, `EarlierErrorForgotten`).
- `solveFormula` strips all closing brackets of a token at once, so with nested groups it can
  lose the rest of the formula (`NestedGroupIsLost`, which needs both operators). Its value is
  right when no group is nested (`SolveIsValue`), and, however groups are nested, when there is
  only one kind of operator (`SolveOneKind`). Both conditions are sufficient only: nested
  formulas with both operators can be right as well.

## Model

| member | source | states |
|---|---|---|
| FormulaCompiler.FindClosing | cloudanalytics/query_request.go:932-960 | the inner loop finds the first token at which the bracket opened just before is closed again, for any tokens |
| FormulaCompiler.ClosingIndexIs | cloudanalytics/query_request.go:932-960 | that token is the first after which as many brackets have been closed as were open |
| FormulaCompiler.FindDividend | cloudanalytics/query_request.go:975-1001 | the backward walk stops where bracket depth zero is first met, or reports that there is no such place |
| FormulaCompiler.BackIndexIs | cloudanalytics/query_request.go:975-1001 | that place is the last element that is no closing bracket and from which on as many brackets are closed as opened |
| FormulaCompiler.InsertDivision | cloudanalytics/query_request.go:992-996 | append, shift by one and overwrite insert the prefix before the dividend and a comma at the end, and lose nothing |
| FormulaCompiler.ParseBracket | cloudanalytics/query_request.go:930-966 | a bracket becomes an open, the compiled inside as one element, and a close; an unclosed one uses up all tokens and compiles nothing; an inner error is passed on |
| FormulaCompiler.ParseToken | cloudanalytics/query_request.go:968-1014 | a token that is no opening bracket takes the compiling machine one step, whatever tokens follow |
| FormulaCompiler.StrayTokens | cloudanalytics/query_request.go:968-1001 | a closing bracket that closes nothing is skipped; a division with nothing to divide is an error |
| FormulaCompiler.ParseMetricsFormulaExpression | cloudanalytics/query_request.go:921-1018 | on every token list, well formed or not, the compiler terminates without an index out of range and computes what the compiling machine does |
| FormulaTranslation.BackOverPrim | cloudanalytics/query_request.go:977-991 | a backward walk over the elements of one complete factor stops at its first element, or leaves an outer depth as it was |
| FormulaTranslation.WalkStopsAtLastFactor | cloudanalytics/query_request.go:977-991 | after any term, whatever was emitted before it, the walk stops at the start of its last complete factor: a word, a bracket group or a whole SAFE_DIVIDE call |
| FormulaTranslation.RunMulToken | cloudanalytics/query_request.go:970-1001 | a slash after a term leaves the term with its last factor opened as a dividend and a division pending; a star is appended |
| FormulaTranslation.RunFactor | cloudanalytics/query_request.go:962-966 | a factor with its optional sign ends a pending division, after the sign and the whole factor |
| FormulaTranslation.CompileIsTranslate | cloudanalytics/query_request.go:921-1018 | the compiler, which builds no tree, prints the SQL tree in which every division takes exactly the last factor before it |
| SqlReader.ReadBack | cloudanalytics/query_request.go:859-861 | text printed from a SQL tree is read back, by ordinary precedence, as that very tree |
| SqlReader.ReadExactly | cloudanalytics/query_request.go:859-861 | a text is read as a tree if and only if it is the print of that tree |
| FormulaMeaning.DivideLastValue | cloudanalytics/query_request.go:973-997 | dividing only the last factor of a product divides the product, with NULLs and zero divisors |
| FormulaMeaning.CompilePreservesMeaning | cloudanalytics/query_request.go:921-1018 | every formula of the grammar compiles, and its SQL has the formula's value under every assignment, division by zero being NULL, if and only if no minus sign directly follows another and SQL can read every word, whichever words those are |
| FormulaMeaning.DoubleMinusIsLost | cloudanalytics/query_request.go:970-971 | `A--B` compiles to text without a value |
| FormulaMeaning.EraseCompiled | cloudanalytics/query_request.go:974-1013 | taking every SAFE_DIVIDE with its comma and its own closing bracket out of the output gives back the tokens that went in |
| FormulaSplitter.ReadNumber | cloudanalytics/query_request.go:874-885 | the inner loop reads the longest run of digits and dots and stays inside the text |
| FormulaSplitter.FormulaSplitter | cloudanalytics/query_request.go:865-892 | the loop computes the split, or an error, for every text |
| FormulaSplitter.SplitExact | cloudanalytics/query_request.go:865-892 | a list is returned if and only if it concatenates to the text, consists of tokens and has maximal numbers; so splits are unique and printed lists come back |
| FormulaSplitter.AcceptedExactly | cloudanalytics/query_request.go:865-892 | a text is accepted if and only if all its characters are operators, variables, digits, or dots behind a digit or dot |
| FormulaText.SpaceMakesNoDifference | cloudanalytics/query_request.go:847 | a space changes nothing wherever it stands, and a text without spaces stays as it is |
| FormulaText.EveryTextIsSpread | cloudanalytics/query_request.go:847 | every text is its text without spaces with some number of spaces before, between and behind its characters |
| FormulaText.VariablesAre | cloudanalytics/query_request.go:834-845 | the variables are A, B, C and so on, each with the SQL of its own metric, unless the query string of one fails |
| FormulaText.EvaluateMetricsFormula | cloudanalytics/query_request.go:831-862 | the variables are made, spaces removed, tokens split and compiled, and the name appended; the first error is returned |
| FormulaText.FormulaSqlMeaning | cloudanalytics/query_request.go:847-859 | from the text a user typed, its characters spread out with any spaces, to the value SQL computes: accepted, and equal to the formula's value if and only if no minus sign follows a minus sign and SQL can read every word |
| FormulaText.MetricFormulaMeaning | cloudanalytics/query_request.go:831-862 | the same for a whole custom metric over A, B, C and so on, which stand for the sums of their own metrics, and numbers: the only exceptions are doubled minus signs and numbers with two dots |
| FormulaText.TwoDotsAreLost | cloudanalytics/query_request.go:874-885 | the text `1..` is accepted and compiles to text without a value |
| HourlyShares.SharesConserveUsage | flexsaveresold/attribution.go:346-368 | the shares of an hour over the eligible orders add up to the usage, no less than zero and no more than the orders can hold; what is left is the rest |
| HourlyShares.SharesFillInOrder | flexsaveresold/attribution.go:357-367 | every share is between zero and the order's units per hour, and a later order gets something only when every earlier eligible one is full |
| HourlyShares.ClockHour | flexsaveresold/attribution.go:343-344 | a time is written to the day and the hour of 24 that it lies in, and to no other |
| HourlyShares.HourHoldsShare | flexsaveresold/attribution.go:343-369 | the hour of a reading that counts ends up holding the order's share, unless a later reading of that clock hour replaces it; so readings of different hours are all kept |
| HourlyShares.HourUntouched | flexsaveresold/attribution.go:326-369 | an hour without a reading that counts is as it was |
| HourlyShares.ReadingsOverwrite | flexsaveresold/attribution.go:326-377 | what a report writes does not depend on what was stored before |
| HourlyShares.ReadingsIdempotent | flexsaveresold/attribution.go:326-377 | sharing out the same report again changes nothing |
| HourlyShares.ReadingsExtend | flexsaveresold/attribution.go:371-374 | copying the workspace back over the map it was copied from gives the workspace |
| HourlyShares.ZeroedDays | flexsaveresold/attribution.go:290-319 | for an order that has ended by mtd the days from 32 days back, if it had started by then, to its last day, else those from the first of its month to the day before mtd, hold 24 zero hours afterwards; every other day what it held |
| LineUnits.LinesCoverOrder | flexsaveresold/attribution.go:735-745 | for an order sized by activation, iterations times increment is exactly its units per hour, with an increment of at most one |
| LineUnits.LinesFit | flexsaveresold/attribution.go:735-745 | for any order the lines are as many as whole increments fit into its units per hour |
| LineUnits.DrainStepUsage | flexsaveresold/attribution.go:426-435 | draining what k lines left by one increment leaves what k + 1 lines leave |
| LineUnits.DrainStepHours | flexsaveresold/attribution.go:424-438 | what a line finds in a drained workspace is one increment for every hour of the undrained usage that holds more than the lines before took |
| LineUnits.DrainAccounting | flexsaveresold/attribution.go:423-455 | qualified plus unqualified hours are the sum over all hours of increment times the smaller of the number of lines and the increments it takes to cover the hour |
| LineUnits.DrainComplete | flexsaveresold/attribution.go:423-439 | when no hour exceeds the lines' capacity, the workspace ends all zero, and the total exceeds the usage by less than one increment per busy hour |
| LineUnits.CostsFollowHours | flexsaveresold/attribution.go:441-454 | savings and penalty are those of the qualified hours and the qualified line units, and the discarded ones those of the rest |
| LineUnits.KeptLinesRecorded | flexsaveresold/attribution.go:445-454 | what is recorded as qualified hours and line units are the hours and the number of the kept lines |
| LineUnits.HoursNeverGrow | flexsaveresold/attribution.go:423-439 | a line never finds more hours than the line before it |
| LineUnits.KeptLinesArePrefix | flexsaveresold/attribution.go:445-454 | the lines kept are exactly the first ones, as many as MTDQualifiedLineUnits says |
| LineUnits.KeptLinesAreOptimal | flexsaveresold/attribution.go:445-454 | no choice of lines saves more, net of penalty, than the lines kept |
| LineUnits.KeptLinesAttain | flexsaveresold/attribution.go:445-454 | the lines kept, as a choice, save net exactly what is recorded |
| LineUnits.AdjustmentNeverPositive | flexsaveresold/attribution.go:536-537 | penalty minus savings of an order is never positive |
| UsageMaps.HourMap.CopyFrom | flexsaveresold/attribution.go:277-279 | the inner copy writes every hour of the source over the target, in any order, and leaves the rest |
| UsageMaps.HourMap.FillZeros | flexsaveresold/attribution.go:311-318 | a new inner map gets zeros for the hours 0 to 23 and nothing else |
| UsageMaps.HourMap.TakeLine | flexsaveresold/attribution.go:427-438 | one line takes an increment, but not below zero, from every hour with usage, changes no other hour, and counts what it took |
| UsageMaps.DayMap.RowOf | flexsaveresold/attribution.go:260-266 | a day's inner map is the one that is there, or a new one that nobody shares |
| UsageMaps.DayMap.Store | flexsaveresold/attribution.go:355-366 | one hour of one day changes, the day being created when absent |
| UsageMaps.DayMap.ZeroDay | flexsaveresold/attribution.go:311-318 | the day gets an inner map of its own with zeros |
| UsageMaps.DayMap.CopyDay | flexsaveresold/attribution.go:275-280 | one day of the copy, into an inner map that is not the source's |
| UsageMaps.DayMap.CopyFrom | flexsaveresold/attribution.go:274-281 | the target becomes the merge of both with the source on top; the source is not written to, and the two share no inner map |
| UsageMaps.DayMap.TakeLine | flexsaveresold/attribution.go:424-439 | one line over all days, in any order: the drained usage and the total it took |
| Autopilot.FlexRIOrder.Prepare | flexsaveresold/attribution.go:380-393 | the workspace starts as a copy of the persisted usage, in maps of its own; the persisted usage is unchanged |
| Autopilot.FlexRIOrder.Allocate | flexsaveresold/attribution.go:354-367 | one assignment goes to the workspace and not to the persisted map |
| Autopilot.FlexRIOrder.TakeShare | flexsaveresold/attribution.go:350-367 | an order outside its period takes nothing; another takes what is offered, up to its units per hour, into its workspace and leaves the rest |
| Autopilot.FlexRIOrder.Keep | flexsaveresold/attribution.go:371-374 | the persisted usage becomes itself with the workspace on top; the maps stay apart |
| Autopilot.FlexRIOrder.ZeroDay | flexsaveresold/attribution.go:308-319 | both maps get zeros for the day, in two different inner maps |
| Autopilot.FlexRIOrder.ZeroAll | flexsaveresold/attribution.go:308-319 | the same for a range of days |
| Autopilot.FlexRIOrder.AccountLine | flexsaveresold/attribution.go:441-454 | a line is accounted as kept when its savings reach its penalty, else as discarded |
| Autopilot.FlexRIOrder.DrainLines | flexsaveresold/attribution.go:423-455 | after the loop the workspace is the drained usage and the costs those of all lines; the persisted usage is untouched |
| Autopilot.FlexRIOrder.CalculateQualifiedCosts | flexsaveresold/attribution.go:409-456 | the costs are those of the workspace as it was found; the persisted usage is untouched |
| AutopilotGroup.PrepareAll | flexsaveresold/attribution.go:380-393 | every workspace is a copy of its order's persisted usage, and no two maps of the group share anything |
| AutopilotGroup.ShareOutOne | flexsaveresold/attribution.go:350-367 | an order's workspace takes its share of what is left of the hour; every other map keeps its contents |
| AutopilotGroup.ShareOutHour | flexsaveresold/attribution.go:346-368 | an hour is shared out over the whole group in order; no persisted map changes |
| AutopilotGroup.ShareOutReading | flexsaveresold/attribution.go:327-369 | an excluded or too recent reading changes nothing, one that does not parse ends the run |
| AutopilotGroup.ShareOutReport | flexsaveresold/attribution.go:327-369 | the workspaces hold the shares of all readings before the first that does not parse |
| AutopilotGroup.DistributeUtilization | flexsaveresold/attribution.go:326-377 | when a name does not parse no persisted map has changed; otherwise every one has its workspace on top |
| AutopilotGroup.DistributeEmptyUtilization | flexsaveresold/attribution.go:283-324 | both maps of every order before the first that has not started get zeros, and still share nothing |
| AutopilotGroup.CalculateAll | flexsaveresold/attribution.go:408-459 | every order gets the costs of its own workspace; the persisted maps stay as distribution left them |
| AutopilotGroup.Update | flexsaveresold/attribution.go:238-246 | over the whole run, for any group and report: an error exactly when a name does not parse, and then neither anything stored nor any cost changed; otherwise the stored usage is what the report makes of it and the costs are of exactly that usage |
| AutopilotGroup.UpdateEmpty | flexsaveresold/attribution.go:238-246 | the same over an empty report |
| AutopilotGroup.ReportedIdempotent | flexsaveresold/attribution.go:326-377 | running the same report on what it left stored leaves the same |
| AutopilotResults.ReportedHour | flexsaveresold/attribution.go:326-377 | every stored hour of every order after a run: the order's share of the last reading that counts in that clock hour, or what was there before when there is none |
| AutopilotResults.StoredHourConserves | flexsaveresold/attribution.go:346-374 | after a run the stored hours of the orders that run then add up to the reported usage, up to their capacity |
| AutopilotResults.ZeroedOrder | flexsaveresold/attribution.go:283-324 | after an empty report, which days of which orders hold zeros, in terms of mtd, the orders' periods and the month; everything else is as it was |
| AutopilotResults.ReadingsInRange | flexsaveresold/attribution.go:357-367 | no report takes a stored hour below zero or above the order's units per hour |
| AutopilotResults.RunDrainsCompletely | flexsaveresold/attribution.go:408-459 | after a report the drain of an activated order leaves nothing and finds less than one increment per busy hour too much |
| AutopilotResults.LinesOfOrder | flexsaveresold/attribution.go:735-745 | an order's increment is its factor, but at most one, and its lines are as many as fit into its units per hour |
| AutopilotResults.LinesOfCosts | flexsaveresold/attribution.go:441-450 | the line units and qualified hours recorded are the number and the hours of the lines whose savings at the order's savings rate reach the cost of the rest of the month at its penalty rate |
| AutopilotResults.CostsOfOrder | flexsaveresold/attribution.go:418-454 | savings are the order's savings rate times the qualified hours; the penalty is its penalty rate times the rest of the hours that the recorded lines have in the days that count; the same for what is discarded |
| AutopilotResults.ActivatedKeepsPrefix | flexsaveresold/flexible_ri.go:216-241 | with the rates of activation the lines kept are the first ones, whatever the reserved price and the percentage |
| AutopilotResults.RollupAdds | flexsaveresold/attribution.go:533-538 | the adjustment adds up penalty less savings, order by order |
| AutopilotResults.RollupNeverPositive | flexsaveresold/attribution.go:533-538 | the adjustment summed over any orders is never a charge |
| OrderPricing.PricingIs | flexsaveresold/flexible_ri.go:216-227 | list prices less the discount, the flexible price at the customer's percentage between them, what it saves, and the same per unit of the factor |
| OrderPricing.RatesAddUp | flexsaveresold/flexible_ri.go:216-227 | the normalized saving and the normalized flexible price add up to the normalized on-demand price, which is not negative |
| OrderPricing.SavingsAreShareOfMargin | flexsaveresold/flexible_ri.go:442-471 | the savings are the percentage of the difference of the discounted prices, and do not depend on the normalization factor |
| BillingExport.CreateNewBillingItemsForHours | flexsaveresold/flexsave_billing_export.go:150-159 | consecutive hours from midnight on; none for a negative number of hours |
| BillingExport.CreateNewBillingItemForDays | flexsaveresold/flexsave_billing_export.go:128-148 | exactly min(max(hours, 0), 24 days) rows are appended, row k starting k hours after the first midnight |
| BillingExport.BillingTable.CreateBillingLineItems | flexsaveresold/flexsave_billing_export.go:46-91 | a run leaves the table alone when it fails or is up to date, and otherwise appends the missing days or the month |
| BillingExport.RowsAppended | flexsaveresold/flexsave_billing_export.go:62-88 | exactly which rows a run appends: one for every hour of the month so far when the saving has changed, else of as many whole days up to today as are missing, all at the hour's saving |
| BillingExport.HourlySavingsAre | flexsaveresold/flexsave_billing_export.go:53-55 | the saving of an hour is a whole number of millionths, the nearest to the hour's share of the total, and of two equally near the one away from zero |
| BillingExport.ViewHolds | flexsaveresold/flexsave_billing_export.go:251-258 | the view holds the cost of the last row of an hour |
| BillingExport.ViewAppend | flexsaveresold/flexsave_billing_export.go:251-258 | in the latest-row view appended consecutive rows write over what was there |
| BillingExport.RunIsRewrite | flexsaveresold/flexsave_billing_export.go:62-88 | one run on any table, whatever the query answered: the view afterwards is that of a full rewrite if and only if the hours the run does not write hold its saving already |
| BillingExport.RunLeavesUniform | flexsaveresold/flexsave_billing_export.go:62-88 | and it holds one row for each hour of days 1 to the run's day at its saving if and only if moreover there was no row of a later hour |
| BillingExport.RunOnUniform | flexsaveresold/flexsave_billing_export.go:62-88 | on a uniform month that comes down to there being no later day |
| BillingExport.IncrementalIsRewriteIff | flexsaveresold/flexsave_billing_export.go:46-91 | over any runs on any table, in any order of days, the view stays that of the rewriting export if and only if every run that succeeds finds in place what it does not write |
| BillingExport.FallingDaysMixSavings | flexsaveresold/flexsave_billing_export.go:72-79 | runs on days 5, 3 and 6, each told the truth, leave two savings in the month although no later day was ever exported |
| BillingExport.IncrementalRefinesRewrite | flexsaveresold/flexsave_billing_export.go:46-91 | over any runs whose days never fall, from an empty month, with any failures, the view is that of an export that rewrites the month each time |
| BillingExport.RewriteNearlyExact | flexsaveresold/flexsave_billing_export.go:51-55 | the rows of a rewrite sum to the requested total within half a millionth per hour |
| Calendar.YearsBefore | cloudanalytics/query_time_settings.go:51-121 | day numbers count 365 days a year and one for each leap year of the Gregorian calendar |
| Calendar.FourHundredYears | cloudanalytics/query_time_settings.go:51-121 | after 400 years, 146097 days, day numbers and weekdays repeat themselves |
| Calendar.MonthsBefore | cloudanalytics/query_time_settings.go:51-121 | the lengths of the months |
| Calendar.AFriday | cloudanalytics/query_time_settings.go:51-121 | 15 March 2024 is day 738959, a Friday |
| Calendar.OrdinalFollowsCalendar | cloudanalytics/query_time_settings.go:51-121 | day numbers are ordered as dates are, through months, years and leap years |
| Calendar.FromOrdinal | cloudanalytics/query_time_settings.go:51-121 | every day number is that of a valid date |
| Calendar.UnitStartsAt | cloudanalytics/query_time_settings.go:104-118 | a day lies in a unit or a later one exactly when it is not before that unit's start |
| Calendar.MonthIndex | cloudanalytics/query_time_settings.go:71-73 | time.Date with a month outside 1 to 12 gives the first of the month so many months on |
| TimeWindows.CurrentHoldsUnit | cloudanalytics/query_time_settings.go:100-121 | the current window holds exactly the days of today's unit up to today |
| TimeWindows.LastStart | cloudanalytics/query_time_settings.go:65-77 | a "last N" window starts with the first day of the unit exactly as many units back as counted |
| TimeWindows.LastEnd | cloudanalytics/query_time_settings.go:82-94 | without the current unit it ends the day before the current window starts |
| TimeWindows.LastHoldsUnits | cloudanalytics/query_time_settings.go:51-98 | without the current unit it holds exactly the days of the N units before today's |
| TimeWindows.LastWithCurrentHolds | cloudanalytics/query_time_settings.go:57-80 | with the current unit it holds the days up to today of the current unit and of the N - 1 before it, but always of one |
| TimeWindows.LastWithCurrentCountsFromTwo | cloudanalytics/query_time_settings.go:57-63 | with the current unit it covers N units if and only if N is at least two |
| TimeWindows.LastOneMonthIsTwo | cloudanalytics/query_time_settings.go:57-63 | on 15 March 2024 the last one month including the current one starts on 1 February |
| TimeWindows.WeekInterval | api/budgets.go:947-965 | the two loops end on a Monday and a Sunday six days apart with the start between them |
| TimeWindows.GetTimeSettings | api/budgets.go:906-945 | a recurring budget's window starts its date's unit and ends with the start of the next one, a week with its Sunday; days and weeks keep the time of day; a fixed budget keeps its dates; missing dates, other budget types and unknown periods are covered |
| TimeWindows.QuarterInterval | api/budgets.go:967-972 | the same for quarters |
| TimeWindows.BudgetCoversUnit | api/budgets.go:919-942 | windows tile the calendar: a window covers exactly the days whose own window it is |
| TimeWindows.BudgetTimes | api/budgets.go:919-942 | windows of months, quarters and years start and end at midnight, those of days and weeks at the time of day of their start |
| TimeWindows.BudgetHoldsStart | api/budgets.go:919-942 | a window holds the moment it was made from, and ends later; only a week may end at that very moment |
| TimeWindows.BudgetSameWindow | api/budgets.go:919-942 | two starts have the same window if and only if they lie in the same unit and, for days and weeks, at the same time of day |
| TimeWindows.BudgetFixed | api/budgets.go:919-942 | recomputed from its start, with its time of day, a window stays the same |
| TimeWindows.BudgetNext | api/budgets.go:919-942 | recomputed from its end, it is the adjacent window; a week stays the same |
| RowAggregation.RowHasKey | cloudanalytics/query/utils.go:63-82 | a row has a key if and only if its key columns hold nothing but text, truth values and nil |
| RowAggregation.KeyGrows | cloudanalytics/query/utils.go:66-82 | what each value adds to the key: its text, `true` or `false`, or `<nil>` |
| RowAggregation.IndexRows | cloudanalytics/query_utils.go:1326-1336 | the index holds, for every key and no other, the rows with that key in order |
| RowAggregation.AddRow | cloudanalytics/query_utils.go:1350-1363 | every metric of the second row is added to the first in place, or an error when one is not a number |
| RowAggregation.SumRow | cloudanalytics/query_utils.go:1348-1366 | one row of a group moves into the first: summed there, nil here, and nothing else changes |
| RowAggregation.SumGroup | cloudanalytics/query_utils.go:1344-1367 | the first row of a group ends up with the group's sum, the others nil, and no other row changes |
| RowAggregation.SumGroups | cloudanalytics/query_utils.go:1338-1368 | in whatever order the keys come, all groups are summed, or one cannot be |
| RowAggregation.Filter | cloudanalytics/query_utils.go:1371-1377 | the rows that are not nil, in order |
| RowAggregation.AggregateRows | cloudanalytics/query_utils.go:1325-1380 | the result, or that there is an error, does not depend on the order in which keys are taken |
| RowAggregationResults.FoldedSums | cloudanalytics/query_utils.go:1348-1364 | a group of several rows can be summed if and only if all its metrics are numbers; the sum holds every metric's total and else the first row's columns |
| RowAggregationResults.LeftIfFirst | cloudanalytics/query_utils.go:1325-1380 | a row is left exactly when it has no key or is the first with its key |
| RowAggregationResults.LeftRowHolds | cloudanalytics/query_utils.go:1325-1380 | a row that is left holds its columns and the sums over its group, and is unchanged without a key or alone |
| RowAggregationResults.SummableExactly | common/numbers/convert_to_float64.go:7-22 | the aggregation fails if and only if a row that shares its key has a metric that is not a number |
| RowAggregationResults.TotalsConserved | cloudanalytics/query_utils.go:1325-1380 | the total of every metric column is conserved |
| RowAggregationResults.KeysCollide | cloudanalytics/query/utils.go:66-82 | different key columns can have the same key |
| RowAggregationResults.GroupsByColumnsIff | cloudanalytics/query/utils.go:66-82 | the rows left are those of a GROUP BY of the columns if and only if no two rows with different columns share a key |
| ConcurrentJobs.StepKeepsInv | common/common.go:393-414 | every step keeps the count of tokens, goroutines and calls in accord and uses up one of the remaining steps |
| ConcurrentJobs.JobsWithinLimit | common/common.go:394-408 | under every interleaving no more jobs run at once than the limit |
| ConcurrentJobs.ReturnsAfterAllJobs | common/common.go:398-413 | when the function returns every job was called exactly once and has ended, and nobody can touch the closed channel |
| ConcurrentJobs.NeverStuck | common/common.go:398-413 | given room in the channel something can happen until the function has returned |
| ConcurrentJobs.RunCompletes | common/common.go:393-414 | given room in the channel every run can go on until the function has returned |
| ConcurrentJobs.ReturnsIff | common/common.go:393-414 | a run that cannot go on has returned if and only if the limit is positive or there is nothing to do |
| ConcurrentJobs.ZeroLimitWaits | common/common.go:393-414 | with a limit of zero and one document nothing can happen once the goroutine is started, and the function has not returned |
| QueryCollection.SendsNeverBlock | firebase/utils.go:119-138 | whoever has an error to send finds room in an open channel |
| QueryCollection.NeverStuck | firebase/utils.go:121-154 | until the function has returned something can happen |
| QueryCollection.RunCompletes | firebase/utils.go:109-163 | every run can go on until the function has returned |
| QueryCollection.CollectsEverything | firebase/utils.go:109-163 | under every interleaving a run that cannot go on has returned: an error if and only if a query failed, else the multiset union of all results |
| QueryCollection.RunsAreBounded | firebase/utils.go:109-163 | no run goes on for ever |
| RecommendationFanOut.NeverStuck | flexsaveresold/orders.go:110-137 | while a message is missing somebody can send or the caller can receive |
| RecommendationFanOut.RunCompletes | flexsaveresold/orders.go:107-140 | every run can go on until all messages are received |
| RecommendationFanOut.FanOutComplete | flexsaveresold/orders.go:107-140 | under every interleaving all messages are received; every success is returned exactly once, under the name of the input at its position and with the three amounts its worker sent; and an error is reported if and only if some worker had one, and it is one of these |
| RecommendationFanOut.WorkersInFlight | flexsaveresold/orders.go:23-23 | the workers in flight are those not yet heard from, at most 15 for a chunk |
| RecommendationChunks.MakeChunks | flexsaveresold/orders.go:142-155 | the loop cuts the input into its chunks |
| RecommendationChunks.ChunksHold | flexsaveresold/orders.go:142-155 | the chunks concatenate to the input, none is empty or too long, and all but the last are full |
| RecommendationChunks.ChunksOfFifteen | flexsaveresold/orders.go:86-86 | GetRecommendations works on chunks of at most fifteen |
| RecommendationChunks.RunsExist | flexsaveresold/orders.go:93-97 | all chunks have runs to their ends, whatever their workers answer |
| RecommendationChunks.CollectChunks | flexsaveresold/orders.go:88-104 | all results in order; an error if and only if there is no result and the last chunk had an error |
| RecommendationChunks.EarlierErrorForgotten | flexsaveresold/orders.go:94-102 | an error in the first of two chunks is not returned |
| RecommendationChunks.GetRecommendationsComplete | flexsaveresold/orders.go:86-104 | the whole call, every chunk in an interleaving of its own: the results are those of the successful positions of the input, each once, with the name of its input and the amounts its worker sent; an error if and only if there is no success and the last chunk had an error, and it is one of these |
| RecommendationWorker.FindPrices | flexsaveresold/flexible_ri.go:378-430 | no document is looked at after the first with which both prices are known; found are the last on-demand price, the last upfront fee of the right terms by the hour, and the one-year price of the last complete document |
| RecommendationWorker.FoundPrices | flexsaveresold/flexible_ri.go:378-430 | the same in terms of the documents alone: which on-demand price, which fee of the right terms divided by 8760, and which one-year price are found, and when there are none |
| RecommendationWorker.Recommend | flexsaveresold/flexible_ri.go:442-480 | the amounts of a recommendation in closed form, free of the normalization factor |
| RecommendationWorker.GetInstanceSavingsByCustomer | flexsaveresold/flexible_ri.go:287-490 | on every path exactly one message is sent: a success under its own position if and only if every lookup answered, prices were found and the discount is not 100%; a warning if and only if only the prices are missing |
| RecommendationWorker.RecommendationsArePriced | flexsaveresold/orders.go:86-104 | from the lookups of all workers to the result of the whole call: exactly the inputs whose lookups all answered and whose discount is not 100%, each once, under its own name and with its own amounts |
| BooleanFormula.ComputeBlockLength | cloudanalytics/standalone_utils.go:140-159 | the two inner loops count the brackets of each token, and the outer one stops where the block is closed |
| BooleanFormula.BlockEndIs | cloudanalytics/standalone_utils.go:140-159 | that is the first token after which no bracket of the block is open any more, or the last token |
| BooleanFormula.SolveToken | cloudanalytics/standalone_utils.go:96-135 | one pass of the loop continues, breaks or returns as the evaluator specifies, and touches nothing before its slice |
| BooleanFormula.SolveFormula | cloudanalytics/standalone_utils.go:91-138 | on every token list the evaluator terminates, and value, skip count and stripped slice are as specified |
| BooleanMeaning.SolveFlat | cloudanalytics/standalone_utils.go:118-137 | inside a group the value is the group's, and the skip count is the index of its last token, reached or not; what follows is untouched |
| BooleanMeaning.SolveIsValue | cloudanalytics/standalone_utils.go:91-138 | every formula without nested groups gets its right-associated value |
| BooleanMeaning.OneOperatorValue | cloudanalytics/standalone_utils.go:102-116 | with one kind of operator that is the plain conjunction or disjunction |
| BooleanMeaning.OneOperatorGroup | cloudanalytics/standalone_utils.go:102-116 | the same inside a group |
| BooleanNesting.SolveAlternating | cloudanalytics/standalone_utils.go:91-159 | on any tokens with one kind of operator, balanced or not as long as no bracket closes before it opens, the value is decided by the words alone |
| BooleanNesting.SolveOneKind | cloudanalytics/standalone_utils.go:91-159 | every formula with one kind of operator, its groups nested to any depth, gets its value |
| BooleanMeaning.NestedGroupIsLost | cloudanalytics/standalone_utils.go:126-131 | ((A AND B)) OR C is false for a false A and a true C |
| AutomaticBatch.AutomaticWriteBatch.constructor | firebase/automatic_batch.go:21-33 | a limit outside 1 to 500 becomes 500; nothing is pending |
| AutomaticBatch.AutomaticWriteBatch.Add | firebase/automatic_batch.go:68-94 | one operation is pending more, at the end, and all batches but the last hold exactly limit operations |
| AutomaticBatch.AutomaticWriteBatch.AddOperation | firebase/automatic_batch.go:57-66 | a batch that has become full is followed by a new empty one |
| AutomaticBatch.AutomaticWriteBatch.Commit | firebase/automatic_batch.go:35-55 | every non-empty batch is sent once and in order, and no empty one; they concatenate to the pending operations; all errors are returned; nothing is pending afterwards |
| AutomaticBatch.FailuresAre | firebase/automatic_batch.go:43-47 | one error for each commit that failed, in order, and for no other |
| AutomaticBatch.SplitUnique | firebase/automatic_batch.go:57-66 | the operations alone decide how they are split |

## Left out

- BooleanMeaning.SolveIsValue: stated for formulas whose groups are not nested. With nested groups and both operators the value depends on which groups are left early under the given assignment, and it can be lost (`NestedGroupIsLost`); no exact condition is given for these. Termination and bounds hold for all token lists.
- RowAggregation.AggregateRows: says nothing about the slice when it returns an error, and no rows; rows are values, so two entries that share one Go slice are not modelled, and no entry is nil at the start.
- RecommendationWorker.GetInstanceSavingsByCustomer: panics on incomplete documents are not modelled, and for an on-demand price of zero the price after discount is left open.
- BillingExport.BillingTable.CreateBillingLineItems: for runs that are not backfills. A backfill stamps its rows with the hour they are for instead of the time of the run, so a view that goes by export time need not prefer them.
- BillingExport.IncrementalRefinesRewrite: likewise without backfills, for one customer and one month; what the query returns for a view with rows of several costs is any one of the groups, as the program takes the last row of an unordered result.
- FormulaText.VariablesAre: for at most 53248 metrics, so that every alias is a character of its own.
- Reports are on civil dates: `getTimeSettingsLastInterval` and `getTimeSettingsCurrentInterval` are given a midnight.
- The dry-run validation of formulas and the SQL text of a metric; malformed formulas have no meaning here, only termination and bounds, which texts are accepted (`AcceptedExactly`), and what stray tokens do (`StrayTokens`).
- Floating-point rounding, infinities and not-a-number.
- The order in which orders are sorted before a run, and the fetching and saving around it: any order of the group is covered.
- `CreateBillingLineItemsByDay`, row fields other than the hour and the cost, and the insertion of rows in chunks.
- Cancellation of contexts and panics in goroutines.
- Firestore, BigQuery, CloudHealth, AWS and mail: answers are parameters or left out.
- Custom report ranges, which truncate two given dates, and the filler rows of comparative reports.
