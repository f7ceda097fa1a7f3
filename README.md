# Rubber-farm production records — a Dafny model

The system records rubber-latex production for a group of farms. An Express server keeps six
MySQL tables: farm, plot, rubber_type, plan, actual and conversion. A React client reads and
writes them.

The model covers the server's write routes, the plan versioning routes and the dashboard
report. It also covers the schema-script runner and the pure logic of four client pages.
The database is replaced by an in-memory store (`Store.Database`) whose methods are the write
routes. Each method either answers 400 and changes nothing, or makes exactly the change its
route module describes as a function on the tables.

- **Tables.** Each table is a `seq` of row datatypes (`Schema`) with an AUTO_INCREMENT counter.
- **Upserts.** `INSERT … ON DUPLICATE KEY UPDATE` is one generic upsert (`Tables.Upsert`). It is
  parameterised by the table's unique key and the columns the update overwrites.
- **Unique keys.** The schema file is not visible, so the keys are taken from the upserts:
  - actual: (farm, plot, rubber type, date);
  - plan: (farm, plot, rubber type, period type, period key, version);
  - conversion: (farm, rubber type, effective_from);
  - plot: (farm, code).

  A new plan takes version 1, the column default.
- **NULLs in keys.** MySQL unique indexes treat NULL as distinct from every value. The store
  therefore carries a flag `nullsDistinct`. When it is set, a key holding NULL never collides,
  so the upsert appends a new row.
- **Values.** Quantities are exact `real`s and dates are (year, month, day) triples with a day
  ordinal. JSON request bodies become typed `Option` fields. Query strings and `:id` parameters
  are strings read by `Base.ParseNumber`, the model of JavaScript's `Number()` on decimal text.
- **Parameters.** The clock ("today"), the outcome of each database call and the user's
  confirmations are parameters of the operations that use them.

Module map:

- Server routes:
  - `PlanRoutes`: server/src/routes/plans.js.
  - `ActualRoutes`: server/src/routes/actuals.js.
  - `ConversionRoutes`: server/src/routes/conversions.js.
  - `PlotRoutes`: server/src/routes/plots.js.
  - `FarmRoutes`: server/src/routes/farms.js.
  - `RubberTypeRoutes`: server/src/routes/rubber-types.js.
- `Reports`: server/src/routes/reports.js.
- `SetupDb`: server/src/setup-db.js.
- Client pages:
  - `StatsPage`: client/src/pages/Stats.jsx.
  - `PlansPage`: client/src/pages/Plans.jsx.
  - `ActualsPage`: client/src/pages/Actuals.jsx.
  - `DashboardPage`: client/src/pages/Dashboard.jsx.
- Shared support:
  - `Base`: JavaScript truthiness, `||` defaults, `trim`, `Number()` and `String()`.
  - `Calendar`: dates, day ordinals and YYYY-MM keys.
  - `Sorting`: `ORDER BY` as a stable sort on lexicographic keys, with NULL first.
  - `Tables`: the generic upsert and its laws.
  - `Schema`: the row types, keys and update columns.

## Model

| member | source | states |
|---|---|---|
| Base.StrOrNull | server/src/routes/plans.js:47 | `x \|\| null` on a string: null exactly when the value is absent or empty, otherwise the value itself |
| Base.NumOrZero | server/src/routes/actuals.js:16 | `Number(x\|\|0)` on a numeric field: the value when present, 0 when absent |
| Base.IdOrNull | server/src/routes/actuals.js:16 | `plot_id ? Number(plot_id) : null`: null exactly when the id is absent or 0, otherwise the id |
| Base.Trim | server/src/routes/plots.js:32 | the result is no longer than the input, has no whitespace at either end, and is empty exactly when the input is all whitespace |
| Base.TrimIdempotent | server/src/routes/plots.js:32 | trimming a trimmed string changes nothing |
| Base.TrimBlankPrefix | server/src/setup-db.js:29 | whitespace in front of a string does not change its trim |
| Base.PadStart | client/src/pages/Actuals.jsx:6 | `padStart(n, c)`: a string at least n long that ends with the input and is filled with c in front; an input already n long is unchanged |
| Base.ParseNumber | client/src/pages/Actuals.jsx:90 | `Number()` of a blank or whitespace-only string is 0 |
| Base.NumberOfIntToString | client/src/pages/Plans.jsx:67 | `Number(String(n))` gives back n for every integer n, negative ones included |
| Base.ToNumber | client/src/pages/Actuals.jsx:72 | `Number()` of a JSON value: null is 0, undefined is NaN (None), a number is itself |
| Base.NumberOrZero | client/src/pages/Actuals.jsx:72 | `Number(v)\|\|0`: the number when it is one, 0 for NaN |
| Base.NumberOfOrZero | client/src/pages/Stats.jsx:43 | `Number(v\|\|0)`: 0 for a falsy value, otherwise `Number(v)` (NaN stays NaN) |
| Base.NumericFilter | server/src/routes/reports.js:16 | the optional farm filter: absent or empty gives no filter; otherwise the filter is on exactly when the text reads as a nonzero number, with that value |
| Base.IdParam | server/src/routes/plans.js:56-57 | an `:id` is accepted exactly when `Number()` reads it as a nonzero number, and it is that number |
| Calendar.NextDayNumber | client/src/pages/Stats.jsx:100-102 | the next calendar day is a valid date, comes after, and its day ordinal is one more (86400000 ms per day) |
| Calendar.DayNumberOrder | client/src/pages/Stats.jsx:100-102 | date order is the order of day ordinals, and equal dates are exactly equal ordinals |
| Calendar.ParseMonthKey | client/src/pages/Plans.jsx:57 | a parsed YYYY-MM key has year 0..9999 and month 1..12 |
| Calendar.ParseYmKey | client/src/pages/Plans.jsx:57-58 | reading back a formatted YYYY-MM key gives the same year and month |
| Calendar.YmKeyOfParse | client/src/pages/Plans.jsx:57-58 | formatting a parsed YYYY-MM key gives back the same text |
| Calendar.MonthKeySame | server/src/routes/reports.js:24 | two dates have the same `%Y-%m` key exactly when their years and months agree |
| Sorting.SortBy | server/src/routes/plans.js:28 | `ORDER BY`: the result is sorted on the key and is a permutation of the rows |
| Sorting.KeyLtTransitive | server/src/routes/plans.js:28 | the lexicographic row-key order is transitive (with `KeyLtIrreflexive` it is a strict order) |
| Sorting.KeyLtIrreflexive | server/src/routes/plans.js:28 | no row key sorts before itself |
| Sorting.SortByStable | client/src/pages/Stats.jsx:77 | the sort is stable: the rows with one key keep their input order, as `Array.prototype.sort` guarantees |
| Tables.FirstClash | server/src/routes/plans.js:45 | the index of the first row whose unique key the new row hits, or -1 when none does |
| Tables.UpsertEffect | server/src/routes/plans.js:42-45 | on a table with unique keys, no clash appends the row; a clash replaces that one row by the merge and keeps every other row in place |
| Tables.UpsertKeepsOthers | server/src/routes/plans.js:45 | a row the new one does not clash with stays unchanged at its position, and the table grows by at most one |
| Tables.UpsertWellFormed | server/src/routes/plans.js:42-45 | an upsert with a fresh AUTO_INCREMENT id keeps the keys unique and the ids below the advanced counter |
| Tables.UpsertWellFormedUnique | server/src/routes/plans.js:42-45 | an upsert keeps the unique keys unique |
| Tables.UpsertTwice | server/src/routes/actuals.js:15 | two upserts on one key equal one upsert of the merged row: the second write wins |
| Tables.UpsertIdempotent | server/src/routes/conversions.js:13-16 | upserting the same row twice gives the table of a single upsert, when the key has no NULL under distinct NULLs |
| Tables.UpsertNullKeyAppends | server/src/routes/actuals.js:16 | under distinct NULLs, a row whose key holds NULL is always appended, so two saves give two rows |
| Tables.UpsertHolds | server/src/routes/plans.js:45 | after an upsert the table holds a row with the new row's key and updated columns |
| Tables.UpsertAllWellFormed | server/src/routes/plans.js:110-118 | `INSERT … SELECT … ON DUPLICATE KEY UPDATE` of rows with consecutive fresh ids keeps keys unique and ids below the counter |
| Tables.UpsertAllAppends | server/src/routes/plans.js:110-118 | rows that clash neither with the table nor with each other are appended in order |
| Tables.UpsertAllNewRows | server/src/routes/plans.js:137-146 | a batch of pairwise-apart rows adds at most one row per batch row, and every added row is a batch row |
| Tables.UpsertAllKeepsOthers | server/src/routes/plans.js:110-118 | a row no inserted row clashes with stays unchanged at its position |
| Tables.UpsertAllKeepsKeys | server/src/routes/plans.js:110-118 | an upsert of many rows never changes the key of an existing row |
| Tables.UpsertAllHolds | server/src/routes/plans.js:110-118 | after the multi-row upsert, every inserted row's key holds that row's updated columns |
| Tables.Filter | server/src/routes/plots.js:47-49 | `DELETE … WHERE`: the rows kept are exactly those that fail the condition, in order |
| Tables.FilterCount | server/src/routes/plots.js:13 | a `WHERE` keeps every passing row as often as it occurs and drops every other |
| Tables.FilterWellFormed | server/src/routes/plots.js:47-49 | deleting rows keeps the keys unique and the ids below the counter |
| Tables.FilterAllOrNone | server/src/routes/plots.js:47-49 | a delete that matches no row leaves the table as it was; one that matches every row empties it |
| Tables.FilterDropsOne | server/src/routes/plans.js:74 | a delete that matches exactly one row removes that row and closes the gap |
| Schema.PlanMergeLaws | server/src/routes/plans.js:45 | a plan upsert keeps the row's id and key, overwrites planned_qty and note, and the later write wins |
| Schema.ActualMergeLaws | server/src/routes/actuals.js:15 | an actual upsert keeps the row's id, key and source, and overwrites qty and note |
| Schema.ConversionMergeLaws | server/src/routes/conversions.js:16 | a conversion upsert keeps the row's id and key, and overwrites only the factor |
| Schema.PlotMergeLaws | server/src/routes/plots.js:30-31 | a plot upsert keeps the row's id, key and planting year, and overwrites area, clone, tapping start and status |
| Schema.InsertWellFormed | server/src/routes/farms.js:15-18 | a plain insert with a fresh id into an id-keyed table keeps it well formed |
| PlanRoutes.JoinRows | server/src/routes/plans.js:24-26 | the inner join of plans with farm and rubber_type: a row for each plan whose farm and type exist, and no other |
| PlanRoutes.List | server/src/routes/plans.js:9-28 | GET /plans: ordered by farm id, plot (NULL as 0), type code, version; each joined row occurs as often as its plan passes the optional farm, period_type and period_key filters, times the number of farms and rubber types it joins with |
| PlanRoutes.JoinRowsCount | server/src/routes/plans.js:24-26 | the inner join repeats each plan once per matching (farm, rubber type) pair |
| PlanRoutes.TypeRowsCountAt | server/src/routes/plans.js:26 | joining one plan with rubber_type gives a row once per rubber-type row with the plan's type id and that code |
| PlanRoutes.FarmRowsCount | server/src/routes/plans.js:24-26 | one plan joins into (matching farms) × (matching rubber types) rows, all carrying that plan |
| PlanRoutes.FarmCountOnKey | server/src/routes/plans.js:25 | with unique farm ids a plan meets its farm once, or not at all |
| PlanRoutes.TypeCountOnKey | server/src/routes/plans.js:26 | with unique rubber type ids a plan meets its type once, or not at all |
| PlanRoutes.MatchingJoinCount | server/src/routes/plans.js:13-27 | the join of the filtered plans holds each row once per stored copy of a passing plan, times its join width |
| PlanRoutes.ListOnKeys | server/src/routes/plans.js:9-28 | on tables with unique ids, GET /plans returns each passing plan exactly as often as it is stored (once per stored copy) when its farm and type exist, and nothing else |
| PlanRoutes.History | server/src/routes/plans.js:82-95 | GET /plans/history: 400 (None) exactly when period_type or period_key is missing; otherwise ordered by type code then version, each row occurring exactly as often as the period's plans (restricted to the farm only when given) produce it through the rubber_type join |
| PlanRoutes.TypeHistoryCount | server/src/routes/plans.js:86-91 | one plan gives a history row once per rubber type with its id and that code, carrying its version, planned_qty and note |
| PlanRoutes.HistoryRowsOfCount | server/src/routes/plans.js:86-93 | the unsorted history rows hold each row exactly as often as the matching plans produce it |
| PlanRoutes.NewPlan | server/src/routes/plans.js:47 | the inserted plan: version 1, falsy plot_id as NULL, missing planned_qty as 0, empty note as NULL, the key fields from the body |
| PlanRoutes.CreateEffect | server/src/routes/plans.js:42-48 | POST /plans appends the new plan when its key is new; otherwise it changes only planned_qty and note of the row with that key |
| PlanRoutes.Patched | server/src/routes/plans.js:60-61 | PUT changes planned_qty only when given non-null, and note only when present (empty as NULL); id and key never change |
| PlanRoutes.SetList | server/src/routes/plans.js:58-62 | the SET list is empty exactly when the body has no updatable field (then 400) |
| PlanRoutes.SetListPatches | server/src/routes/plans.js:58-64 | applying the assembled SET list to a row gives the patched row |
| PlanRoutes.UpdateById | server/src/routes/plans.js:64 | only rows with that id are patched; every other row is unchanged |
| PlanRoutes.ApplyById | server/src/routes/plans.js:64 | `UPDATE plan SET … WHERE id = ?` applies the assignments to the rows with that id and to no other |
| PlanRoutes.ApplySetList | server/src/routes/plans.js:58-64 | running the assembled UPDATE equals the patch-by-id specification |
| PlanRoutes.UpdateByIdEffect | server/src/routes/plans.js:56-64 | update by id keeps the table well formed, never changes a key or id, and changes at most one row |
| PlanRoutes.DeleteById | server/src/routes/plans.js:74 | the rows left are exactly those whose id differs |
| PlanRoutes.DeleteByIdEffect | server/src/routes/plans.js:72-74 | delete by id keeps the table well formed, changes nothing for an unknown id, and otherwise removes exactly that row, so other versions of its lineage stay |
| PlanRoutes.ScopeOf | server/src/routes/plans.js:104-105 | bump-version is accepted exactly when farm_id, period_type and period_key are all truthy, and its scope is those three |
| PlanRoutes.MaxVersion | server/src/routes/plans.js:115-117 | `MAX(version)` over the scope: NULL exactly when the scope is empty, otherwise a version some scope row has and none exceeds |
| PlanRoutes.NextVersion | server/src/routes/plans.js:106-109 | `COALESCE(MAX(version),0)+1`: above every version in the scope, and either 1 or one more than an existing version |
| PlanRoutes.Latest | server/src/routes/plans.js:112-117 | the rows selected for copying are exactly the scope rows at the scope-wide max version |
| PlanRoutes.CopyTo | server/src/routes/plans.js:110-112 | a copy lies in the target scope at the new version and keeps plot_id, rubber_type_id, planned_qty and note |
| PlanRoutes.CopiesOf | server/src/routes/plans.js:110-117 | one copy per selected row, in order, with consecutive fresh ids |
| PlanRoutes.CopiesApart | server/src/routes/plans.js:110-118 | the copies of the latest rows have pairwise distinct unique keys |
| PlanRoutes.BumpAppends | server/src/routes/plans.js:110-121 | bump-version appends exactly the copies of the latest rows at next, leaves every existing row unchanged, and keeps the table well formed |
| PlanRoutes.BumpNewLatest | server/src/routes/plans.js:106-122 | after a bump of a non-empty scope, the scope's max version is the reported next, and the latest rows are exactly the copies |
| PlanRoutes.DstVersion | server/src/routes/plans.js:134 | the destination version is the given one when truthy, otherwise 1 |
| PlanRoutes.CopyRequest | server/src/routes/plans.js:129-135 | bulk-copy is 400 exactly when src or dst is missing or either has a zero farm or an empty type or key; otherwise it gives the two scopes and the destination version |
| PlanRoutes.BulkCopyKeeps | server/src/routes/plans.js:137-148 | bulk-copy keeps the table well formed and never changes an existing row's key or id; rows outside the destination scope and version are unchanged, so the source rows are too |
| PlanRoutes.BulkCopyAddsOnlyCopies | server/src/routes/plans.js:137-148 | bulk-copy appends at most one row per source row at the source max version, each appended row is a copy, and an existing row no copy clashes with is unchanged |
| PlanRoutes.BulkCopyHolds | server/src/routes/plans.js:137-148 | every source row at the source max version has a copy in the destination scope at the destination version, with its plot, type, planned_qty and note |
| Store.Database.Restore | server/src/routes/plots.js:52-54 | the rollback: every table and counter is back to the saved snapshot |
| Store.Database.CreatePlan | server/src/routes/plans.js:36-50 | POST /plans: 400 with nothing changed when farm_id, rubber_type_id, period_type or period_key is missing; otherwise 201 and the plan upsert, with nothing else changed |
| Store.Database.UpdatePlan | server/src/routes/plans.js:54-66 | PUT /plans/:id: 400 with nothing changed on a bad id or no updatable field; otherwise 200 and the update by id |
| Store.Database.DeletePlan | server/src/routes/plans.js:70-76 | DELETE /plans/:id: 400 with nothing changed on a bad id; otherwise 204 and the delete by id |
| Store.Database.BumpVersion | server/src/routes/plans.js:102-123 | bump-version: 400 with nothing changed on a missing scope field; otherwise 200, reports the next version, and the plan table becomes the bumped one |
| Store.Database.BulkCopy | server/src/routes/plans.js:127-150 | bulk-copy: 400 with nothing changed on a bad request; otherwise 200 and the plan table becomes the bulk-copied one |
| Store.Database.SaveActual | server/src/routes/actuals.js:6-19 | POST /actuals: 400 with nothing changed when date, farm_id or rubber_type_id is falsy; otherwise 201 and the actual upsert |
| Store.Database.SaveConversion | server/src/routes/conversions.js:7-20 | POST /conversions: 400 with nothing changed on a missing type, date or null factor; otherwise 201 and the conversion upsert |
| Store.Database.SavePlot | server/src/routes/plots.js:21-35 | POST /plots: 400 with nothing changed when farm_id or code is missing; otherwise 201 and the plot upsert |
| Store.Database.DeletePlot | server/src/routes/plots.js:39-58 | DELETE /plots/:id: 400 with nothing changed on a bad id; a failing step gives 500 with all three tables as they were; otherwise 204 and the cascade |
| Store.Database.CreateFarm | server/src/routes/farms.js:12-21 | POST /farms: always 201 and exactly one new farm appended |
| Store.Database.CreateRubberType | server/src/routes/rubber-types.js:15-26 | POST /rubber-types: 400 with nothing changed when code or unit is missing; otherwise 201 and exactly one new type appended |
| ActualRoutes.NewActual | server/src/routes/actuals.js:13-16 | the inserted actual: source 'manual', falsy plot_id as NULL, missing qty as 0 (not range-checked), empty note as NULL |
| ActualRoutes.SaveEffect | server/src/routes/actuals.js:12-16 | a new key adds one row; an existing (farm, plot, type, date) key gets qty and note replaced in place, and every other row is unchanged |
| ActualRoutes.SaveWellFormed | server/src/routes/actuals.js:12-16 | saving keeps the actual table's keys unique and ids fresh |
| ActualRoutes.SaveTwice | server/src/routes/actuals.js:5-15 | saving the same key twice leaves exactly one row with that key, holding the last qty and note |
| ActualRoutes.SaveNullPlotAppends | server/src/routes/actuals.js:16 | under distinct NULLs, saving a plot-less actual twice adds two rows |
| ConversionRoutes.NewConversion | server/src/routes/conversions.js:17 | the inserted conversion keeps farm_id as given (`??`: absent is NULL, 0 stays 0), with the type, date and factor from the body |
| ConversionRoutes.SaveEffect | server/src/routes/conversions.js:13-17 | the same (farm, type, effective_from) overwrites only the factor; otherwise a row is added |
| ConversionRoutes.SaveWellFormed | server/src/routes/conversions.js:13-17 | saving keeps the conversion table well formed |
| ConversionRoutes.SaveIdempotent | server/src/routes/conversions.js:13-16 | posting the same body twice gives the table of posting it once, when the key has no NULL under distinct NULLs |
| ConversionRoutes.SaveSystemWideAppends | server/src/routes/conversions.js:17 | under distinct NULLs, a system-wide (farm NULL) conversion posted twice gives two rows |
| PlotRoutes.List | server/src/routes/plots.js:10-15 | GET /plots: 400 (None) exactly when farm_id is missing, zero or non-numeric; otherwise that farm's active plots, ordered by code, each as often as it is stored |
| PlotRoutes.NewPlot | server/src/routes/plots.js:32 | the inserted plot: code trimmed, status 'active', missing area as 0, empty optional fields as NULL |
| PlotRoutes.SaveEffect | server/src/routes/plots.js:27-32 | a new (farm, code) adds a plot; an existing one gets area, clone and tapping start overwritten and status reset to active, keeping planting_year |
| PlotRoutes.SaveWellFormed | server/src/routes/plots.js:27-32 | saving keeps the plot table well formed |
| PlotRoutes.SaveIdempotent | server/src/routes/plots.js:27-32 | posting the same plot twice gives the table of posting it once |
| PlotRoutes.Cascade | server/src/routes/plots.js:47-49 | after the cascade, the actuals and plans left are exactly those not on the plot, and the plots left are exactly those without its id |
| PlotRoutes.CascadeKeeps | server/src/routes/plots.js:46-50 | the cascade keeps all three tables well formed and leaves a table untouched when nothing in it matches |
| FarmRoutes.List | server/src/routes/farms.js:7 | GET /farms: every farm exactly once, ordered by name |
| FarmRoutes.UnnamedFirst | server/src/routes/farms.js:7 | farms with a NULL name come before named ones |
| FarmRoutes.NewFarm | server/src/routes/farms.js:15-18 | the inserted farm: name passed through unchecked, status 'active', missing area as 0, empty province and district as NULL |
| FarmRoutes.CreateWellFormed | server/src/routes/farms.js:15-18 | a farm insert always adds a new row with a fresh id and never updates an existing one |
| RubberTypeRoutes.List | server/src/routes/rubber-types.js:9 | GET /rubber-types: every type exactly once, ordered by id |
| RubberTypeRoutes.NewRubberType | server/src/routes/rubber-types.js:21-23 | the inserted type: code and unit trimmed, empty description as NULL |
| RubberTypeRoutes.CreateWellFormed | server/src/routes/rubber-types.js:21-24 | a type insert always adds a new row with a fresh id and never modifies an existing one |
| RubberTypeRoutes.CreateTrimmed | server/src/routes/rubber-types.js:23 | the stored code and unit are already trimmed |
| Reports.TopIndex | server/src/routes/reports.js:31-32 | `ORDER BY version DESC LIMIT 1`: an index whose version no candidate exceeds |
| Reports.PlanM | server/src/routes/reports.js:25-33 | plan_m is NULL exactly when no MONTH plan of the type, month (and farm, when filtered) exists; otherwise the planned_qty of some candidate of highest version, plot rows included |
| Reports.Round1 | server/src/routes/reports.js:56 | `toFixed(1)`: a whole number of tenths within 0.05 of the input, never negative for a non-negative input; an exact tie goes to the tenth away from zero |
| Reports.Completion | server/src/routes/reports.js:53-56 | completion_pct is NULL exactly when plan_m is NULL or 0; otherwise Round1(100·mtd/plan_m), a whole number of tenths within 0.05 of it, as `toFixed(1)` gives |
| Reports.RowFor | server/src/routes/reports.js:20-56 | for a calendar date, a row's actual_today is the sum over that date, actual_mtd the sum over the whole calendar month, plan_m and completion as above |
| Reports.Report | server/src/routes/reports.js:13-61 | for a calendar date, the dashboard has exactly one row per rubber type (with or without actuals), ordered by code, the month key of the date, and every farm |
| Reports.TodayWithinMonth | server/src/routes/reports.js:23-24 | with no negative quantity, the day's sum never exceeds the month's |
| Reports.NoActualsZero | server/src/routes/reports.js:23-51 | a type without actuals shows 0 today and 0 for the month, and completion NULL or 0 |
| Reports.CompletionOfNothing | server/src/routes/reports.js:53-56 | with nothing produced, completion is NULL or 0 |
| Reports.LaterDayInMonth | server/src/routes/reports.js:24 | an actual later in the same month counts towards actual_mtd but not actual_today |
| Reports.May2024 | server/src/routes/reports.js:15 | worked example: any date in May 2024 has month key "2024-05" |
| Reports.FarmQuerySeven | server/src/routes/reports.js:16 | worked example: the query farm_id=7 filters on farm 7 |
| Reports.ScenarioToday | server/src/routes/reports.js:23 | worked example: actual_today on 15 May is 150 |
| Reports.ScenarioMonth | server/src/routes/reports.js:24 | worked example: actual_mtd for May is 250 |
| Reports.ScenarioPlan | server/src/routes/reports.js:25-33 | worked example: plan_m is 1000 |
| Reports.ScenarioCompletion | server/src/routes/reports.js:53-56 | worked example: 250 of 1000 is 25.0 percent |
| Reports.Scenario | server/src/routes/reports.js:48-57 | worked example: the whole row: mu_nuoc, 150, 250, 1000, 25.0 |
| SetupDb.FirstSep | server/src/setup-db.js:28 | the first separator (`;`, optional whitespace, then CR/LF) at or after a position, or -1 when none |
| SetupDb.MatchEnd | server/src/setup-db.js:28 | the greedy `\s*[\r\n]+` match ends on a line break |
| SetupDb.SepEnd | server/src/setup-db.js:28 | the matched separator text is a separator |
| SetupDb.CutText | server/src/setup-db.js:28 | `split`: the pieces and separators glued back give the text; each separator matches the pattern; no piece contains one |
| SetupDb.TrimAll | server/src/setup-db.js:29-30 | `.map(trim).filter(Boolean)`: every result is non-empty and trimmed; the results are exactly the non-empty trimmed pieces (order and count: TrimAllConcat, TrimAllOne) |
| SetupDb.TrimAllConcat | server/src/setup-db.js:29-30 | trimming and filtering two lists of pieces in turn gives the two results one after the other |
| SetupDb.TrimAllOne | server/src/setup-db.js:29-30 | one piece gives its trimmed self, or nothing when it is blank |
| SetupDb.SplitSql | server/src/setup-db.js:25-31 | every statement is non-empty and trimmed, and the statements are exactly the non-empty trimmed pieces between separators (order and count: SplitGlue) |
| SetupDb.SplitSqlBlanks | server/src/setup-db.js:26-31 | leading whitespace before the schema text changes no statement |
| SetupDb.SplitSqlCons | server/src/setup-db.js:26-31 | a piece, a separator and the rest split into that piece (trimmed, dropped if blank) followed by the statements of the rest |
| SetupDb.SplitGlue | server/src/setup-db.js:26-31 | pieces free of separators, joined by separators, split back into exactly those pieces trimmed and with blanks dropped, in order |
| SetupDb.NoSeparatorOneStatement | server/src/setup-db.js:25-31 | text with no separator (a `;` mid-line or at the end of the file) is one statement, its trimmed self |
| SetupDb.FirstFatal | server/src/setup-db.js:85-93 | the first statement whose error is not in NON_FATAL_CODES, or -1; every earlier error is non-fatal |
| SetupDb.FirstFatalAt | server/src/setup-db.js:84-93 | a fatal error preceded only by non-fatal ones is the first fatal one |
| SetupDb.RunStatements | server/src/setup-db.js:79-95 | the loop sends every statement and skips (by 1-based number) exactly those with non-fatal errors; on a fatal error it stops there, so later statements are never sent |
| SetupDb.EnsureSchema | server/src/setup-db.js:38-95 | a missing DB_HOST, DB_USER or DB_NAME fails before any statement is sent; a missing schema file fails with nothing sent; otherwise the statements split from the file are run by the statement loop, with RunStatements' outcome |
| StatsPage.OfType | client/src/pages/Stats.jsx:65-71 | the conversions of one rubber type, exactly |
| StatsPage.FarmRows | client/src/pages/Stats.jsx:74 | exactly the type's conversions for that farm |
| StatsPage.DefaultRows | client/src/pages/Stats.jsx:75 | exactly the type's system-wide (farm NULL) conversions |
| StatsPage.Candidates | client/src/pages/Stats.jsx:76 | the candidate list is drawn from the type's rows and is non-empty when they are |
| StatsPage.CandidatesRows | client/src/pages/Stats.jsx:73-76 | the farm's rows when a farm is given and has some; else the system-wide rows when any exist; else all the type's rows |
| StatsPage.OfTypeEmpty | client/src/pages/Stats.jsx:71-72 | the type has no rows exactly when no conversion is of that type |
| StatsPage.NewestFirstOrderOf | client/src/pages/Stats.jsx:77 | the sort puts later effective dates first, is a permutation of the candidates (same multiset), and keeps the rows of each effective date in candidate order |
| StatsPage.ScanFound | client/src/pages/Stats.jsx:79 | the first row of the newest-first list in effect by dateTo is the latest in effect |
| StatsPage.ScanMissed | client/src/pages/Stats.jsx:80 | when no row is in effect, the head of the newest-first list is the latest-dated row |
| StatsPage.ChooseIn | client/src/pages/Stats.jsx:78-80 | the scan with `break` returns the list's first row in effect by dateTo, or the head of the list when no row is in effect; that row is the latest in effect, or the latest of all |
| StatsPage.PickFor | client/src/pages/Stats.jsx:70-81 | pickFor is null exactly when the type has no conversion; otherwise the factor of the first candidate, in candidate order, with the latest effective date ≤ dateTo, or of the first latest-dated candidate when none qualifies |
| StatsPage.LatestInEffectDate | client/src/pages/Stats.jsx:77-79 | any two rows that qualify as chosen share their effective date; PickFor settles such ties by candidate order |
| StatsPage.RowOf | client/src/pages/Stats.jsx:43 | a fetched row's quantity is `Number(r.qty\|\|0)`: 0 for a falsy value, otherwise its number (NaN as None) |
| StatsPage.AddQty | client/src/pages/Stats.jsx:42-43 | `prev + Number(qty)`: NaN spreads; otherwise the sum, with a missing entry counted as 0 |
| StatsPage.DayTotalIsSum | client/src/pages/Stats.jsx:39-44 | with every quantity numeric, a date's total is the sum of its rows' quantities |
| StatsPage.DayTotalUnseen | client/src/pages/Stats.jsx:42 | a date with no rows has total 0 |
| StatsPage.TotalsByDate | client/src/pages/Stats.jsx:39-45 | the loop's map has exactly one entry per distinct date of the rows, holding that date's total, and its keys are in order of each date's first row |
| StatsPage.DailyMetrics | client/src/pages/Stats.jsx:39-56 | recordCount counts all rows; daysWithData counts the dates with positive total; min/max are the smallest and largest positive totals, all null when there is none; minDate and maxDate are, among the dates with that total, the one whose first row comes first |
| StatsPage.DataEntries | client/src/pages/Stats.jsx:46 | the entries with a positive total, each once, in entry order, with their values |
| StatsPage.FirstMinIndex | client/src/pages/Stats.jsx:49-50 | the head of the stable ascending sort: a smallest value with no equal value before it |
| StatsPage.FirstMaxIndex | client/src/pages/Stats.jsx:51-52 | the head of the stable descending sort: a largest value with no equal value before it |
| StatsPage.ExtremeFirst | client/src/pages/Stats.jsx:45-52 | an entry with no equal value before it is the date with that total whose first row comes first |
| StatsPage.ColumnTotal | client/src/pages/Stats.jsx:86 | the column total (totalFarmActual; totalPlotActual at line 92 has the same shape) is NaN (None) exactly when some value reads as NaN, and otherwise the sum of the numeric values, falsy ones as 0 |
| StatsPage.SumOfNumbersSnoc | client/src/pages/Stats.jsx:86 | the sum over a list is the sum over all but the last value plus the last, so the left-to-right reduce and the sum agree |
| StatsPage.ColumnTotalFalsy | client/src/pages/Stats.jsx:86 | rows whose value is falsy add nothing to the column total |
| StatsPage.DaysCount | client/src/pages/Stats.jsx:98-105 | at least 1; for from ≤ to the inclusive number of days; 1 when a date is missing or to precedes from |
| StatsPage.DaysCountNextDay | client/src/pages/Stats.jsx:98-105 | moving dateTo one day later adds exactly one day |
| StatsPage.ShownAll | client/src/pages/Stats.jsx:331-333 | each field's text: empty for null, `String(v)` otherwise |
| StatsPage.QuotedReadsBack | client/src/pages/Stats.jsx:335 | a quoted field with doubled quotes reads back, under section 2 of RFC 4180, as the original text |
| StatsPage.PlainReadsBack | client/src/pages/Stats.jsx:337 | an unquoted field without comma or quote reads back as itself |
| StatsPage.FieldReadsBack | client/src/pages/Stats.jsx:331-337 | every field toCsvRow writes reads back as the field's text, and the reader stops at the next comma |
| StatsPage.CsvRowReadsBack | client/src/pages/Stats.jsx:330-339 | reading toCsvRow's row as one RFC 4180 record gives back every field's text, in order |
| StatsPage.CarriageReturnUnquoted | client/src/pages/Stats.jsx:334 | as written, a field holding `\r` is left unquoted, so the row has a bare line break outside quotes |
| StatsPage.FieldNoBareBreak | client/src/pages/Stats.jsx:334-337 | with `\r` also quoted, a written field adds no line break outside quotes |
| StatsPage.StrictRowNoBareBreak | client/src/pages/Stats.jsx:334 | with `\r` also quoted, no row has a line break outside quotes |
| StatsPage.FieldReadsBackStrict | client/src/pages/Stats.jsx:334-337 | with `\r` also quoted, every field still reads back as its text |
| StatsPage.StrictRowReadsBack | client/src/pages/Stats.jsx:330-339 | with `\r` also quoted, the row still reads back as every field's text |
| PlansPage.ParseQuarterKey | client/src/pages/Plans.jsx:61-62 | a quarter key that reads has a year and a quarter in 1..4 |
| PlansPage.PrevPeriodKey | client/src/pages/Plans.jsx:55-70 | the previous key of a non-empty key is non-empty |
| PlansPage.PrevMonth | client/src/pages/Plans.jsx:56-58 | MONTH: the previous key is the prior calendar month as YYYY-MM, January going to December of the year before |
| PlansPage.QuarterKeyReads | client/src/pages/Plans.jsx:64 | a key written as `${y}-Q${q}` reads back as (y, q) |
| PlansPage.PrevQuarter | client/src/pages/Plans.jsx:60-65 | QUARTER: Y-Q1 goes to (Y-1)-Q4 and Y-Qn to Y-Q(n-1), one quarter earlier |
| PlansPage.PrevYear | client/src/pages/Plans.jsx:54-68 | YEAR: the previous key reads as the key's first four digits minus 1 |
| PlansPage.PrevOtherType | client/src/pages/Plans.jsx:69 | any other period type returns the key unchanged |
| PlansPage.AddPlanCreates | client/src/pages/Plans.jsx:29-37 | the created plan is farm-level (plot NULL) at version 1, with planned_qty defaulting to 0; the server accepts it exactly when farm, type, period type and key are set |
| PlansPage.CopyPrevRequest | client/src/pages/Plans.jsx:80-84 | copy-previous copies from the previous key into the current period, same farm, at version 1 |
| PlansPage.FindQ | client/src/pages/Plans.jsx:61 | the position of the first `-Q` in the key, or its length when there is none |
| PlansPage.QuarterPickerKeepsQuarterKey | client/src/pages/Plans.jsx:191-193 | a picker opened on a quarter key emits that same key |
| PlansPage.QuarterPickerFromMonthKey | client/src/pages/Plans.jsx:191-193 | as written, a picker opened on the month key "2024-05" emits "2024-05-Q1", which no quarter parser reads |
| PlansPage.QuarterPickerFixedEmitsQuarterKey | client/src/pages/Plans.jsx:191-193 | the corrected picker always emits a readable quarter key, and from a month key it starts at Q1 of that year |
| ActualsPage.ToYmd | client/src/pages/Actuals.jsx:7-10 | toYMD of a falsy value is ''; of a string starting YYYY-MM-DD it is exactly the first ten characters |
| ActualsPage.ToYmdIdempotent | client/src/pages/Actuals.jsx:10 | normalising a normalised date changes nothing |
| ActualsPage.ToYmdOfTimestamp | client/src/pages/Actuals.jsx:10 | a timestamp written as the date plus a time part normalises to the date |
| ActualsPage.TotalConcat | client/src/pages/Actuals.jsx:72 | the total of two lists is the sum of their totals |
| ActualsPage.TotalSkipsNonNumeric | client/src/pages/Actuals.jsx:72 | a non-numeric quantity counts as 0 |
| ActualsPage.LoadQuery | client/src/pages/Actuals.jsx:51-58 | empty filters are omitted, plot_id is trimmed, and the limit is 500 when the input is empty, 0 or non-numeric |
| ActualsPage.LoadQueryBlanks | client/src/pages/Actuals.jsx:54-57 | a whitespace-only limit gives 500, and a whitespace-only plot filter is sent as '' |
| ActualsPage.EditRequest | client/src/pages/Actuals.jsx:90-98 | a NaN or negative qty is rejected, then an empty date; an accepted edit sends the numeric qty, the trimmed note (NULL if empty) and the toYMD date |
| ActualsPage.EditRequestBlankQty | client/src/pages/Actuals.jsx:90-98 | a blank qty is accepted as 0 |
| ActualsPage.ActualsView.CancelEdit | client/src/pages/Actuals.jsx:85-88 | cancelling clears the edited row and the draft |
| ActualsPage.ActualsView.SaveEdit | client/src/pages/Actuals.jsx:89-105 | saveEdit sends an update of row id exactly when the edit passes the checks; on success it clears the edit and reloads, and the reload clears the message (or shows the load failure), otherwise the state stays |
| ActualsPage.ActualsView.Load | client/src/pages/Actuals.jsx:48-64 | load clears the message, sets the load-failure message when the fetch fails, and leaves the edit alone |
| DashboardPage.Color | client/src/pages/Dashboard.jsx:29-34 | no colour for null; '#0a6' at 98 or more; '#c90' from 90 to below 98; '#c33' below 90 |
| DashboardPage.ColorMonotone | client/src/pages/Dashboard.jsx:29-34 | a higher completion never gets a worse colour |
| DashboardPage.RubberCodeId | client/src/pages/Dashboard.jsx:36 | only mu_nuoc (1) and mu_tap (2) have ids |
| DashboardPage.QuickRequest | client/src/pages/Dashboard.jsx:38-48 | no farm aborts first, then a non-numeric input, then an unknown code; otherwise the body has plot_id NULL, note 'quick-input' and the number, 0 for blank input |
| DashboardPage.QuickRequestStores | client/src/pages/Dashboard.jsx:48 | the quick-input body is accepted by the server and stored as a farm-level actual with that quantity |
| DashboardPage.QuickInputTwiceAppends | client/src/pages/Dashboard.jsx:48 | under distinct NULLs, two quick inputs on one day give two rows |
| DashboardPage.DashboardView.SaveToday | client/src/pages/Dashboard.jsx:38-53 | saveToday posts exactly when the guards pass; after success only that code's input is cleared, otherwise the inputs stay |

## Left out

- Ids are the AUTO_INCREMENT counters and are never reused. Every upsert advances the counter,
  whether it inserts or updates, as InnoDB does. Two kinds of gaps are not modelled: those left
  by an insert that fails with a 500, and those left by `INSERT … SELECT` (bump-version and
  bulk-copy). For `INSERT … SELECT`, InnoDB may reserve AUTO_INCREMENT values in batches,
  depending on `innodb_autoinc_lock_mode`, so its counter can end above the old counter plus the
  number of copied rows. The model advances it by exactly that number.
- Collation: the tables are utf8mb4_unicode_ci (setup-db.js:53); the model compares strings
  exactly, by code point.
  - `ORDER BY` on text is code-point order.
  - Unique keys and `WHERE col = ?` are exact too. In MySQL they ignore case, accents and
    trailing spaces: saving plot code 'a1' after 'A1' on the same farm updates the 'A1' row,
    while `Tables.Upsert` appends a second row.
- Store.Database.CreatePlan, BulkCopy, BumpVersion, SaveActual, SaveConversion, SavePlot and
  CreateRubberType do not check foreign keys. MySQL would answer 500 for a farm, plot or rubber
  type id that does not exist. CreateRubberType also appends a duplicate code, where the unique
  index on rubber_type.code would answer 500. The schema file holding these constraints is not
  part of this model.
- Malformed dates, non-numeric ids inside request bodies and database type errors mostly end in
  500 answers. The model types these fields, so those paths do not arise. One exception:
  bulk-copy converts `src.farm_id` and `dst.farm_id` with `Number(...)` before its guard
  (plans.js:131-135), so a non-numeric farm id is NaN, which is falsy, and the route answers 400
  before any SQL runs. PlanRoutes.CopyRequest types these farm ids as integers, so it covers
  this 400 only for a farm id that is absent or 0, not for non-numeric text.
- Reports.RowFor and Reports.Report require a calendar date. The dashboard route reads `date`
  from the query string without any check (reports.js:14-15) and answers 200 whatever it is.
  These cases are not modelled:
  - Text dayjs cannot read gives the month key "Invalid Date", so no actual or plan matches the
    month, and MySQL only warns on the day comparison: both sums are 0 and plan_m is NULL.
  - An overflowing date such as "2024-02-30" is rolled over by dayjs, so the month key is
    "2024-03" and the row shows March's month sum and plan, while the day comparison with the
    raw text matches no row.
- The Stats page fetches (lines 21-34, 38, 57-59) and the catch branch that resets the metrics
  are I/O.
  - `StatsPage.DailyMetrics` takes the fetched rows as a parameter.
  - `StatsPage.RowOf` converts each quantity once, up front.
  - A date whose total is NaN counts as having no data.
- StatsPage.DaysCount: counts calendar days exactly. The page divides the difference of two
  local midnights by 86400000 and floors it (Stats.jsx:100-102), so a range across the
  spring-forward DST change counts one day fewer; the contract does not promise that.
- Host time zone and DST: the Date branch of `toYMD` (Actuals.jsx:12-17) and the Date arithmetic
  of the MONTH branch of `prevPeriodKey` are not modelled.
  - `ActualsPage.ToYmd` gives None for the Date branch.
  - `PlansPage.PrevMonth` states the intended month decrement.
- Floating point: quantities and factors are exact reals. `toFixed(1)` is modelled as rounding
  to the nearest tenth, half away from zero. The dry-weight products and averages
  (Stats.jsx:87-96) and `toLocaleString` formatting are display only.
- `Base.ParseNumber` reads optional whitespace, a sign, digits and an optional fraction. It does
  not read exponents, hex, binary or octal prefixes, or `Infinity`; those are NaN in the model.
- The CSV download, `window.print`, console logging, dotenv, database and pool creation, and
  reading the schema file are I/O.
  - The schema text and each statement's error code are parameters of `SetupDb.EnsureSchema`.
  - The file-existence check is an `Option`.
- Concurrency: requests are sequential, and the plot-delete transaction is one atomic method.
  Which of its steps fails is a parameter.
- The HTTP wiring of the GET routes (JSON encoding, the 404 and 500 handlers) is out of scope.
  Each GET route is a function of the tables and the query.
- StatsPage.PickFor: the null-factor branch of `pickFor` (Stats.jsx:81) is not modelled,
  because the conversion table's factor is always a number here (POST rejects a null factor).
- StatsPage.PickFor: effective dates are compared as calendar dates. The source sorts with
  `localeCompare` on strings and compares `new Date(...)`; for ISO YYYY-MM-DD text both agree
  with date order.
- PlansPage.PrevPeriodKey: a key the model does not read gives None. The page behaves
  differently per period type.
  - MONTH: an invalid date makes `toISOString` throw a RangeError (Plans.jsx:57).
  - QUARTER: the quarter is not range-checked, so "2024-Q5" gives "2024-Q4" and "2024-Q0" gives
    "2024-Q-1"; a key with no `-Q` gives "NaN-QNaN".
  - YEAR: `Number` reads the first four characters, so the key "1e3" gives "999", a key
    starting " 202" gives "201", and other non-digit text gives "NaN".
- The QuarterPicker's later edits, when the user changes the year or the quarter, only re-emit
  `${y}-Q${q}`. The model covers the key it emits when it opens.
- `onUpdateQty`, `onDelete`, `onBumpVersion`, `onViewHistory`, `beginEdit` and `removeRow` are
  API calls whose server effect is already modelled by the routes. Their React state updates are
  not modelled.
- SetupDb.TrimAll: its own contract states membership only. Order and multiplicity are stated
  by `SetupDb.TrimAllConcat` and `SetupDb.TrimAllOne`.
- SetupDb.SplitSql: its own contract states membership only. Order and multiplicity are stated
  by `SetupDb.SplitGlue`, for text built from separator-free pieces.
- Reports.Report: the farms list carries every farm in name order, as `FarmRoutes.List` sorts
  them. The contract states only its length.
- The month sum follows the code rather than the prose description of the dashboard.
  - actual_mtd sums the whole calendar month of the query date (reports.js:24), including days
    after it (`Reports.LaterDayInMonth`).
  - plan_m has no `plot_id IS NULL` restriction, so plot-level plans compete too.
- Reports.PlanM: among plans tied at the highest version the model picks the first in table
  order. The contract promises only "some plan of highest version", as `LIMIT 1` does.
- Authentication, the login and registration pages, the page routing and the form-only pages
  (Farms, Plots, RubberTypes, Conversions, ActualForm) are not part of this model.

## Findings

| source | as written | input that shows it | evidently intended | confidence | as-written member | corrected member |
|---|---|---|---|---|---|---|
| client/src/pages/Plans.jsx:191-193 | QuarterPicker takes the year as the text before `-Q`; a value with no `-Q` keeps its whole text as the year. The page hands it the YYYY-MM key left over when the period type switches from MONTH (Plans.jsx:8-9, 92, 105) | value "2024-05" emits "2024-05-Q1", so plans are saved under that key and prevPeriodKey reads its year as NaN | start from a proper quarter key, Q1 of that year | not executed | PlansPage.QuarterPickerFromMonthKey | PlansPage.QuarterPickerFixedEmitsQuarterKey |
| client/src/pages/Stats.jsx:334 | toCsvRow quotes a field containing ',', '\n' or '"' but not '\r' | the field "A\rB" is written unquoted, so the row holds a bare carriage return, which section 2 of RFC 4180 reads as a line break | quote a field containing CR as well, so that no line break appears outside quotes | not executed | StatsPage.CarriageReturnUnquoted | StatsPage.StrictRowNoBareBreak |
