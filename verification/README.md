# fletapp core in Dafny

This project models the logic at the heart of two small desktop applications, and
proves properties of that model. The logic is mostly written as SQL strings and Flet
callbacks in the original code.

- **The vehicle registry** (`list_cars.py` on SQLite, `main.py` on Oracle). A search
  box finds vehicles by plate, make or model, and owners by name. Clicking a result
  opens a detail view:
  - a vehicle view shows its current owner and its ownership history;
  - an owner view shows the owner's fields and the vehicles they held.
- **The dossier list** (`list_dossier.py`, with the query helpers of `database.py`).
  This is a paged, searchable list of dossiers with a pagination bar, an edit dialog
  that validates and cleans up what it saves, and a card per dossier.

The SQL is lifted into pure functions over in-memory tables, which are sequences of
row records:

- `WHERE … LIKE` becomes a filter under SQLite's `LIKE`, which is ASCII
  case-insensitive and treats `%` and `_` as wildcards.
- `ORDER BY` becomes "a permutation of the filtered rows that is sorted by the key".
  Ties are left unspecified. A paged list reads every page as a window of one and the
  same such order; SQL does not promise that separate `LIMIT/OFFSET` queries break
  ties the same way (see "Left out").
- `LIMIT/OFFSET` becomes a window on a sequence.
- `fetchone()` on a query without `ORDER BY` becomes an explicit `choice` parameter.
- The clock becomes a `today` parameter.
- Each detail view becomes the sequence of text lines the pane would hold.

Modules, one per file:

| module | file | what it holds |
|---|---|---|
| `Text` | text.dfy | ASCII upper-casing, SQLite BINARY collation, Python `str.strip`, `str(int)` |
| `Sql` | sql.dfy | nullable values, Python truthiness and f-string rendering, `\|\|` under each dialect, `LIMIT/OFFSET` |
| `Like` | like.dfy | the `LIKE` operator and its meaning for `'%q%'` |
| `Rows` | rows.dfy | filtering, `ORDER BY` as a sorted permutation (an insertion sort), windows of sorted rows |
| `Dates` | dates.dfy | `YYYY-MM-DD` parsing (calendar section 4.1.2.2 of ISO 8601:2004) and `DD/MM/YYYY` display; for canonical strings, text order is chronological order |
| `Registry` | registry.dfy | vehicle, owner and ownership-period rows, the owner label, the search predicates, the joins behind the detail views |
| `Sheets` | sheets.dfy | the detail pane as lines, the owner field list, the row texts |
| `CarsSqlite` | cars_sqlite.dfy | `list_cars.py`: search with exact-plate shortcut, current owner, detail views |
| `CarsOracle` | cars_oracle.dfy | `main.py`: unordered search, unordered current-owner pick, detail views |
| `DossierStore` | dossier_store.dfy | `database.py`: paged search and seeding |
| `DossierList` | dossier_list.dfy | `list_dossier.py`: the list's state machine, pagination, saving, cards |

Where the behaviour surprises, the model follows the code:

- The SQLite search sorts owners before vehicles, because `'PROPRIETAIRE' < 'VEHICULE'`.
- The exact-plate check takes some matching row; it does not require exactly one.
- A stored date that `strptime` rejects raises `ValueError`. That escapes the
  `except sqlite3.Error` handler, so the whole detail view fails, not one row.
- A vehicle whose periods have all ended shows no detail lines at all.
- The "first page" and "last page" buttons pass plain integers to `change_page`,
  which reads every integer as a step.
- A new search keeps the current page number.

## Model

| member | source | states |
|---|---|---|
| `Text.UpperEqIffFoldEq` | list_cars.py:105 | `UPPER(a) = UPPER(b)` holds exactly when the two strings are equal up to ASCII case |
| `Text.TextLtTransitive` | list_cars.py:131 | BINARY collation (code-point lexicographic order) is transitive |
| `Text.TextLtTrichotomy` | list_cars.py:131 | any two texts are equal or ordered one way or the other under BINARY collation |
| `Text.TextLeAntisymmetric` | list_cars.py:131 | two texts each sorting no later than the other are equal |
| `Text.Strip` | list_cars.py:84 | the stripped text has no leading or trailing whitespace, is empty exactly when the input is all whitespace, and is never longer than the input |
| `Text.StripIsMiddle` | list_cars.py:84 | the stripped text is a contiguous slice of the input, and everything removed before and after it is whitespace |
| `Text.StripIdempotent` | list_dossier.py:270-273 | stripping a stripped text changes nothing |
| `Text.IntToString` | list_dossier.py:583 | the decimal text of an integer is digits (after a `-` for negatives) whose value is the integer |
| `Text.NatToStringInjective` | list_dossier.py:583 | different page numbers and totals print differently |
| `Sql.Concat` | list_cars.py:125 | SQLite `\|\|` is NULL exactly when an operand is NULL; Oracle's is NULL exactly when both operands are NULL or empty; otherwise it is the concatenation |
| `Sql.Window` | database.py:77-79 | `LIMIT n OFFSET o` keeps `min(n, max(0, len - max(0, o)))` rows (no bound for a negative limit), read in order from the offset |
| `Sql.PageHolding` | database.py:65 | row `k` appears on the page whose offset is `(k div n) * n` |
| `Like.SurroundIsContains` | list_cars.py:114-121 | for a query without `%` or `_`, `t LIKE '%q%'` holds exactly when `t` contains `q` up to ASCII case |
| `Like.UpperLikeIsLike` | list_cars.py:119 | upper-casing both sides does not change what `LIKE` matches |
| `Like.PercentQueryMatchesAll` | list_cars.py:114 | an unescaped `%` query matches every non-NULL column |
| `Like.UnderscoreQueryMatchesNonEmpty` | list_cars.py:114 | an unescaped `_` query matches exactly the non-empty columns |
| `Like.LiteralMatchesItself` | list_dossier.py:145 | a query without wildcards matches a column holding exactly that query |
| `Rows.Filter` | database.py:68-70 | the kept rows are exactly those satisfying the condition, each as often as in the table |
| `Rows.Sort` | list_cars.py:131 | the result is a permutation of the input, sorted by the key |
| `Rows.OrderBySameRows` | list_cars.py:131 | an ordered result holds the same rows as its input |
| `Rows.FirstIsLeast` | list_cars.py:219 | the first row of an ordered result sorts no later than any input row |
| `Rows.WindowOfSorted` | database.py:77-79 | a window of sorted rows is sorted and draws its rows from them |
| `Dates.ParseIso` | list_cars.py:264 | a successful parse gives a valid calendar date whose fields are the digit groups of `YYYY-MM-DD` |
| `Dates.ParseFormatIso` | list_cars.py:264 | formatting a valid date as `YYYY-MM-DD` and parsing it back gives the date |
| `Dates.FormatParseIso` | list_cars.py:264 | a parsable text is the canonical `YYYY-MM-DD` form of its date |
| `Dates.Reformat` | list_cars.py:264-265 | `strptime(…, '%Y-%m-%d').strftime('%d/%m/%Y')` succeeds exactly on valid dates and swaps the digit groups to `DD/MM/YYYY` |
| `Dates.ReformatIsDisplay` | list_cars.py:264-265 | the reformatted text is the `DD/MM/YYYY` display of the parsed date |
| `Dates.Display` | main.py:191 | `strftime('%d/%m/%Y')` gives ten characters, slashes at positions 2 and 5, whose digit groups are the day, the month and the four-digit year |
| `Dates.TextOrderIsChronological` | list_cars.py:218 | for valid `YYYY-MM-DD` texts, text order is chronological order and text equality is date equality |
| `Dates.TextLeIsChronological` | list_cars.py:251 | the same for the non-strict order `ORDER BY date_debut DESC` uses |
| `Registry.FindVehicle` | list_cars.py:214-217 | the lookup by id gives a vehicle with that id, and nothing exactly when no vehicle has it |
| `Registry.FindOwner` | list_cars.py:276-282 | the lookup by id gives an owner with that id, and nothing exactly when no owner has it |
| `Registry.OwnerLabel` | list_cars.py:124-127 | an individual's label is `nom ' ' prenom`: under SQLite NULL exactly when either part is NULL, under Oracle never NULL; an organization's label is its `raison_sociale` |
| `Registry.JoinedLabel` | list_cars.py:208-216 | a period whose owner row is missing gives a NULL label through the `LEFT JOIN` |
| `Registry.TextMatchesIsContainment` | list_cars.py:119 | `UPPER(col) LIKE UPPER('%q%')` for a literal query is containment up to ASCII case |
| `Registry.VehicleMatchIsContainment` | list_cars.py:119-121 | a vehicle matches a literal query exactly when its plate, make or model contains it up to case |
| `Registry.PercentMatchesEveryVehicle` | list_cars.py:114-121 | the query `%` lists every vehicle |
| `Registry.VehicleHits` | main.py:54-61 | one row per matching vehicle: every matching vehicle is listed and every row comes from a matching vehicle |
| `Registry.OwnerHits` | main.py:64-74 | one row per matching owner, matched on the name fields of its own kind |
| `Registry.VehicleHitsFollowMatches` | main.py:54-61 | the vehicle rows are the matching vehicles, one row per table row (duplicates included), in table order |
| `Registry.OwnerHitsFollowMatches` | main.py:64-74 | the owner rows are the matching owners, one row per table row (duplicates included), in table order |
| `Registry.OwnershipsOf` | list_cars.py:240-252 | the history join keeps exactly the vehicle's periods whose owner row exists, each with that owner, one row per such period in table order (a period stored twice gives two rows) |
| `Registry.HoldingsOf` | list_cars.py:316-324 | the vehicle-list join keeps exactly the owner's periods whose vehicle row exists, each with that vehicle, one row per such period in table order |
| `Sheets.Prepend` | list_cars.py:185-195 | the title goes before the view's lines, and a failed view stays failed |
| `Sheets.FormatAll` | list_cars.py:260-273 | formatting the rows succeeds exactly when every row formats, and then gives each row's text in order |
| `Sheets.FormatAllFailsIff` | list_cars.py:260-273 | the loop fails exactly when some row's date is rejected |
| `Sheets.MapRows` | main.py:190-198 | one text per row, in row order |
| `Sheets.Section` | list_cars.py:255-273 | a section is its heading followed by one entry per row, and nothing at all without rows |
| `Sheets.OwnerFieldLines` | list_cars.py:286-314 | an owner's fields start with "Type" and its kind, include every candidate field with a non-empty value, and never show an empty value |
| `Sheets.NamesMembership` | list_cars.py:310-314 | a field name is shown exactly when some line is a field of that name |
| `Sheets.OwnerSheetLayout` | list_cars.py:286-314 | an owner sheet starts with "Type", keeps the fixed field order, and never shows an empty value |
| `Sheets.OwnerFieldShownIffTruthy` | list_cars.py:310-314 | every field other than "Type" is shown exactly when its value is non-empty |
| `Sheets.OwnerFieldOrderDistinct` | list_cars.py:291-308 | no field name occurs twice in an owner's field order |
| `Sheets.HistoryEntryMarksOpenEnd` | list_cars.py:264-271 | a history row ends in " au Présent" exactly when its end is shown as "Présent" rather than as a date |
| `Sheets.HoldingEntryMarksOpenEnd` | list_cars.py:335-340 | a vehicle row ends in " au Présent)" exactly when its end is shown as "Présent" rather than as a date |
| `CarsSqlite.ExactPlateMatch` | list_cars.py:105-106 | some vehicle whose plate equals the query up to ASCII case, and nothing exactly when there is none |
| `CarsSqlite.ExecuteSearch` | list_cars.py:82-135 | a blank query clears everything; a plate hit opens that vehicle's view titled with the stripped query and builds no list; otherwise the list is the sorted matches and the pane is hidden |
| `CarsSqlite.OwnerKindSortsFirst` | list_cars.py:117-131 | `'PROPRIETAIRE'` sorts before `'VEHICULE'` |
| `CarsSqlite.SearchRowOrder` | list_cars.py:131 | `ORDER BY type, libelle` with NULL captions first is a total preorder |
| `CarsSqlite.BroadSearch` | list_cars.py:116-134 | the result is the matching vehicles and owners, sorted by `(type, libelle)` |
| `CarsSqlite.BroadSearchListsVehicle` | list_cars.py:116-121 | a vehicle is listed exactly when its plate, make or model matches |
| `CarsSqlite.BroadSearchListsOwner` | list_cars.py:123-130 | an owner is listed exactly when a name field of its own kind matches |
| `CarsSqlite.BroadSearchOrder` | list_cars.py:131 | every owner row precedes every vehicle row, and within a kind the captions ascend, NULL first |
| `CarsSqlite.ShowDate` | list_cars.py:232 | an empty or NULL date shows the fallback; a stored one shows as `DD/MM/YYYY` and fails exactly when it is not a valid date; what it shows is `DateText` |
| `CarsSqlite.Latest` | list_cars.py:219 | `ORDER BY date_debut DESC LIMIT 1` gives a row whose start is the latest |
| `CarsSqlite.CurrentOwnerRow` | list_cars.py:207-221 | no row for an unknown vehicle; an all-NULL owner for a vehicle without periods; otherwise a row exactly when some period is open, carrying the label and start of an open period with the latest start |
| `CarsSqlite.History` | list_cars.py:240-253 | the history is the joined periods, latest start first |
| `CarsSqlite.HistoryEntry` | list_cars.py:260-271 | a history row formats exactly when its dates are well formed, and then reads "{label}{kind} - Du {start} au {end}": the kind " (Personne morale)" for an organisation and nothing otherwise, dates as `DD/MM/YYYY`, "N/A" for an empty start and "Présent" for an empty end; it ends in " au Présent" exactly when the end is NULL or empty |
| `CarsSqlite.OpenOrganizationHistoryEntry` | list_cars.py:264-271 | an organisation's period without an end reads "{raison sociale} (Personne morale) - Du {start} au Présent" |
| `CarsSqlite.VehicleSheet` | list_cars.py:223-273 | the view fails exactly when a shown date is malformed; otherwise it is the seven fields, with owner "N/A" when its label is NULL or empty, then the history section |
| `CarsSqlite.VehicleDetails` | list_cars.py:206-273 | no line when the current-owner query finds no row; otherwise a rendered view is the seven fields, with the owner's label ("N/A" when NULL or empty) and the start as `DD/MM/YYYY` ("N/A" when empty), followed by the history section of the formatted history rows |
| `CarsSqlite.VehicleWithoutPeriods` | list_cars.py:213-232 | a vehicle without periods shows its seven fields with "N/A" as owner and date, and no history |
| `CarsSqlite.VehicleWithOnlyClosedPeriods` | list_cars.py:215-223 | a vehicle whose periods have all ended shows no detail line at all |
| `CarsSqlite.CurrentOwnerShown` | list_cars.py:207-232 | with an open period, the shown owner and date are those of an open period with the latest start |
| `CarsSqlite.SheetShowsRow` | list_cars.py:231-232 | fields six and seven show the current-owner row's label and start |
| `CarsSqlite.HistoryIsChronological` | list_cars.py:251 | with well-formed dates, the history runs from the latest start date to the earliest |
| `CarsSqlite.VehicleDetailsFailIff` | list_cars.py:221-273 | the vehicle view fails exactly when the current-owner row exists and its start, or a date of a history period, is malformed |
| `CarsSqlite.Holdings` | list_cars.py:316-324 | the owner's vehicles are the joined periods, latest start first |
| `CarsSqlite.HoldingEntry` | list_cars.py:331-340 | a vehicle row formats exactly when its dates are well formed, and then reads "{plate} - {make} {model} (Du {start} au {end})" with the same date texts; it ends in " au Présent)" exactly when the end is NULL or empty |
| `CarsSqlite.OpenHoldingEntry` | list_cars.py:335-340 | a vehicle still held reads "{plate} - {make} {model} (Du {start} au Présent)" |
| `CarsSqlite.BirthShown` | list_cars.py:301 | an individual's birth date shows "N/A" when absent, and fails exactly when malformed |
| `CarsSqlite.OwnerDetails` | list_cars.py:275-343 | no line for an unknown owner; otherwise a rendered view is the owner's fields followed by the section of its formatted vehicle rows |
| `CarsSqlite.OwnerViewLayout` | list_cars.py:284-343 | a rendered owner view starts with "Type", shows its fields in the fixed order, then the section of the owner's vehicles |
| `CarsSqlite.IndividualShowsBirthDate` | list_cars.py:297-314 | an individual's sheet always shows "Date de naissance" |
| `CarsSqlite.HoldingsFailIff` | list_cars.py:326-343 | the vehicle list fails exactly when one of the owner's periods has a malformed date |
| `CarsSqlite.OwnerDetailsFailIff` | list_cars.py:275-343 | the owner view fails exactly when the owner exists and its birth date or a period date is malformed |
| `CarsSqlite.ShowDetails` | list_cars.py:171-204 | a title naming the caption comes first, and the view fails exactly when the view of the row's kind fails |
| `CarsOracle.Search` | main.py:54-76 | every matching vehicle and owner is listed, and every listed row comes from a match of its kind |
| `CarsOracle.VehiclesListedFirst` | main.py:76 | every vehicle row precedes every owner row |
| `CarsOracle.SearchListsVehicle` | main.py:54-61 | with unique ids, a vehicle is listed exactly when it matches |
| `CarsOracle.ExecuteSearch` | main.py:38-77 | a blank query leaves the previous results and pane untouched; any other replaces the results with the search for the stripped query and hides the pane |
| `CarsOracle.SameVehiclesAsSqlite` | main.py:54-76 | for a query that hits no plate exactly, both variants list the same vehicle rows; only their order differs |
| `CarsOracle.PeriodsOf` | main.py:143 | the vehicle's periods, and none when no period names it |
| `CarsOracle.OpenPeriodsOf` | main.py:143-146 | exactly the vehicle's periods with no end or an end after today |
| `CarsOracle.CurrentOwnerRow` | main.py:135-148 | no row for an unknown vehicle; an all-NULL owner for a vehicle without periods; otherwise a row exactly when some period is open, carrying the label and start of some open period |
| `CarsOracle.EveryOpenPeriodCanBeChosen` | main.py:146-148 | every open period is the row `fetchone` returns for some row order |
| `CarsOracle.VehicleDetails` | main.py:150-198 | nothing exactly when no current row; else a title, the seven fields with the owner printed as is, and the history section |
| `CarsOracle.VehicleDetailsEmptyIff` | main.py:143-150 | the view is empty exactly when the vehicle is unknown or all of its periods have ended |
| `CarsOracle.VehicleWithoutPeriods` | main.py:155-162 | a vehicle without periods prints "None" as owner and "N/A" as date, and has no history |
| `CarsOracle.CurrentOwnerShown` | main.py:155-168 | whatever row order Oracle picks, the shown owner and date are those of an open period |
| `CarsOracle.EveryOpenPeriodCanBeShown` | main.py:135-168 | every open period is the one shown for some row order |
| `CarsOracle.SheetShowsRow` | main.py:161-162 | fields six and seven show the current-owner row's label and start |
| `CarsOracle.HistoryListsEveryPeriod` | main.py:170-183 | the history lists one entry per period of the vehicle whose owner exists (the same rows as the join, with multiplicity), latest start first |
| `CarsOracle.History` | main.py:170-183 | the history is the joined periods of the vehicle, latest start first |
| `CarsOracle.HistoryEntry` | main.py:187-196 | a history row reads "{label}{kind} - Du {start} au {end}" with the kind " (Personne morale)" for an organisation, dates as `DD/MM/YYYY` and "Présent" for a NULL end; it ends in " au Présent" exactly when the end is NULL |
| `CarsOracle.OpenOrganizationHistoryEntry` | main.py:191-195 | an organisation's period without an end reads "{raison sociale} (Personne morale) - Du {start} au Présent" |
| `CarsOracle.HoldingsListEveryPeriod` | main.py:243-251 | the vehicle list holds one entry per period of the owner whose vehicle exists (the same rows as the join, with multiplicity), latest start first |
| `CarsOracle.Holdings` | main.py:243-251 | the owner's vehicles are the joined periods, latest start first |
| `CarsOracle.HoldingEntry` | main.py:257-263 | a vehicle row reads "{plate} - {make} {model} (Du {start} au {end})" with dates as `DD/MM/YYYY` and "Présent" for a NULL end; it ends in " au Présent)" exactly when the end is NULL |
| `CarsOracle.OpenHoldingEntry` | main.py:259-262 | a vehicle still held reads "{plate} - {make} {model} (Du {start} au Présent)" |
| `CarsOracle.BirthShown` | main.py:228 | an individual's birth date shows as `DD/MM/YYYY`, or "N/A" when absent |
| `CarsOracle.OwnerDetails` | main.py:200-265 | nothing exactly for an unknown owner; else a title, the owner's fields and the vehicle section |
| `CarsOracle.IndividualShowsBirthDate` | main.py:224-241 | an individual's sheet always shows "Date de naissance" |
| `CarsOracle.ShowDetails` | main.py:106-132 | the pane is empty exactly when the row's entity (or, for a vehicle, its current row) is missing, and otherwise starts with the title of its kind |
| `DossierStore.AnyColumnLikeIsContainment` | database.py:68-70 | for a literal query, a row matches exactly when one of the searched non-NULL columns contains the query up to case |
| `DossierStore.Matching` | database.py:68-70 | the matches are exactly the rows where some searched column is `LIKE '%q%'`, each as often as in the table |
| `DossierStore.DateOrder` | database.py:77 | `ORDER BY date DESC` on TEXT is a total preorder |
| `DossierStore.Ordered` | database.py:77 | the ordered matches are a permutation of the matches, latest date first |
| `DossierStore.SearchDossiers` | database.py:62-90 | the total counts every match whatever the page; the rows are matches, sorted by date descending, read from offset `(page-1)*page_size` |
| `DossierStore.PageSize` | database.py:65-90 | a page holds `min(page_size, max(0, total - offset))` rows, read in order from the offset |
| `DossierStore.EveryMatchOnSomePage` | database.py:65-79 | every match appears on some page whose offset lies within the total |
| `DossierStore.InsertAll` | database.py:55-58 | each inserted row gets the next id and its values, after the existing rows |
| `DossierStore.SeedSamples` | database.py:31-60 | an empty table receives the 15 sample rows in order; a non-empty table is left as it was |
| `DossierStore.SeedTwiceIsSeedOnce` | database.py:35-37 | seeding a second time changes nothing |
| `DossierStore.SeededTableIsNotEmpty` | database.py:36-58 | after seeding, the table is not empty and has lost no rows |
| `DossierStore.SampleNumbersDistinct` | database.py:39-53 | the sample dossier numbers are pairwise distinct |
| `DossierList.TotalPages` | list_dossier.py:558 | the page count is at least 1 and is the ceiling of total / 10 |
| `DossierList.CreationOrder` | list_dossier.py:130 | `ORDER BY created_at DESC` is a total preorder |
| `DossierList.ListMatching` | list_dossier.py:145 | a row matches exactly when numero, personne, objet, numero_reference, date or date_debut is `LIKE '%q%'` |
| `DossierList.Newest` | list_dossier.py:130 | the rows are permuted so that creation times descend |
| `DossierList.PageOf` | list_dossier.py:128-131 | a page holds at most ten rows from offset `(page-1)*10`, in order |
| `DossierList.LoadAll` | list_dossier.py:124-134 | the total is the table size, and the rows shown are the ten-row window at offset `(page-1)*10` of the table ordered newest first |
| `DossierList.Load` | list_dossier.py:118-134 | with no active query it is the plain load: the whole table counted and the page's rows newest first; with one, the search runs again on the field's current text; the page is kept either way |
| `DossierList.Search` | list_dossier.py:136-162 | a blank query falls back to the plain list; otherwise the page is kept, the rows shown are the ten-row window at offset `(page-1)*10` of the matches ordered newest first, and the total is the match count only when that window has rows |
| `DossierList.LoadKeepsValid` | list_dossier.py:36-39 | loading and searching keep the page at least 1 and the total non-negative |
| `DossierList.SearchKeepsStalePage` | list_dossier.py:150-157 | a search run from a page past its last match shows nothing and reports a total of 0 |
| `DossierList.Pagination` | list_dossier.py:556-604 | no bar exactly when there is one page and no query; "previous" and "first" are disabled exactly on page 1 or below, "next" and "last" exactly from the last page on; "first" passes 1, "previous" -1, "next" 1 and "last" the page count; the caption is `PageCaption` |
| `DossierList.PageCaptionShowsNumbers` | list_dossier.py:583 | the caption reads "Page {p}/{n} ({t} dossiers)" with the decimal texts of the page, the page count and the total |
| `DossierList.BarShownIff` | list_dossier.py:558-561 | a short table with no query has no bar; a query, or more than ten rows, always shows one |
| `DossierList.ChangePage` | list_dossier.py:608-620 | the page moves by the step exactly when the target is within `[1, total_pages]`, and nothing changes otherwise |
| `DossierList.OvershootStays` | list_dossier.py:608-620 | a step at least as large as the page count, from page 1 or later, leaves the screen as it is |
| `DossierList.Press` | list_dossier.py:563-604 | a missing or disabled button does nothing; on a page within the count, an enabled "previous" moves one page back and "next" one forward, "first page" moves one forward (or stays put on the last page), and "last page" stays put |
| `DossierList.FirstPageActsAsNext` | list_dossier.py:566 | an enabled "first page" button does what "next page" does |
| `DossierList.LastPageNeverMoves` | list_dossier.py:600 | the "last page" button never changes the screen |
| `DossierList.FirstPageCounterexample` | list_dossier.py:566 | on page 2 of 3, "first page" goes to page 3 |
| `DossierList.ChangePageIntended` | list_dossier.py:608-620 | with the reload of the active query, the page moves by the step exactly when the target is within `[1, total_pages]`, and nothing changes otherwise |
| `DossierList.PressIntended` | list_dossier.py:563-604 | with the wiring the tooltips describe, a missing or disabled button still does nothing |
| `DossierList.IntendedButtonsLand` | list_dossier.py:566-602 | with that wiring, "first page" lands on page 1, "last page" on the last page, and previous and next step by one |
| `DossierList.SearchIntended` | list_dossier.py:136-151 | with the page reset, a new query starts from page 1 and a repeated one keeps the page |
| `DossierList.NewSearchShowsMatches` | list_dossier.py:141-157 | a new query with matches shows some of them and counts all of them |
| `DossierList.LoadIntended` | list_dossier.py:118-123 | the corrected reload searches the active query again rather than the field's current text, keeping the page; with no active query it is the plain load |
| `DossierList.NextPageSearchesFieldText` | list_dossier.py:608-620 | as written, "next page" during a search moves one page and takes the field's unsubmitted text as the new query; when that text matches nothing the list is empty and the total 0 |
| `DossierList.NextPageKeepsActiveQuery` | list_dossier.py:608-620 | corrected, "next page" moves one page and keeps the submitted query |
| `DossierList.LoadIsAccurate` | list_dossier.py:118-162 | from a settled state, a reload whose field still holds the active query shows an accurate screen |
| `DossierList.ChangePageKeepsAccurate` | list_dossier.py:608-620 | from an accurate screen whose field still holds the active query, a page change keeps the screen accurate |
| `DossierList.PressIsAccurate` | list_dossier.py:563-620 | the same for a click on any button as the code wires it |
| `DossierList.Step` | list_dossier.py:118-162 | one event as the code handles it keeps the state valid, and keeps an accurate screen accurate when the search field still holds the active query; an accurate screen has a stripped query, counts exactly the rows it selects, is on a page within the page count and shows that page of them newest first |
| `DossierList.Run` | list_dossier.py:36-39 | every screen reached from the first load by any sequence of events has a page of at least 1 and a total of at least 0 |
| `DossierList.StaleRunCounterexample` | list_dossier.py:141-157 | on eleven dossiers of which one matches a query, the first load, "next page" and a search for that query show nothing, report a total of 0, and leave a screen that is not accurate |
| `DossierList.SecondPageOfEleven` | list_dossier.py:589-595 | on eleven dossiers, "next page" after the first load goes to page 2 with either wiring |
| `DossierList.ElevenDossiersExist` | list_dossier.py:145 | a table of eleven dossiers and a query matching exactly one of them exist |
| `DossierList.OneMatchAmong` | list_dossier.py:145 | for a non-empty query without wildcards and any `n`, some table of `n + 1` dossiers has exactly one match |
| `DossierList.SearchIntendedIsAccurate` | list_dossier.py:136-162 | the corrected search keeps an accurate screen accurate, whatever the field holds |
| `DossierList.PressIntendedIsAccurate` | list_dossier.py:563-620 | the corrected click keeps an accurate screen accurate |
| `DossierList.StepIntended` | list_dossier.py:118-162 | with the corrected search, reload and buttons, every event keeps an accurate screen accurate |
| `DossierList.RunIntended` | list_dossier.py:36-39 | with the corrected wiring, every screen reached from the first load is accurate |
| `DossierList.NewSearchRunShowsMatch` | list_dossier.py:141-157 | the events of the stale-page counterexample, on the corrected screen, land on page 1 with the one match shown and counted |
| `DossierList.Optional` | list_dossier.py:270-273 | an empty or NULL optional field is stored as NULL, and any other as its stripped text |
| `DossierList.Save` | list_dossier.py:247-293 | a save is rejected exactly when numero, date, personne or objet is empty; required fields are stored as typed and optional ones cleaned up |
| `DossierList.FormOf` | list_dossier.py:373-434 | saving the form filled from a stored row is accepted exactly when the row's numero, date, personne and objet are non-empty, and then keeps them |
| `DossierList.BlankOptionalBecomesEmpty` | list_dossier.py:270-273 | a whitespace-only optional field is stored as `""`, not NULL |
| `DossierList.UnchangedEditKeepsRow` | list_dossier.py:373-434 | saving an unchanged edit form of a clean row stores the same row |
| `DossierList.OptionalSettles` | list_dossier.py:270-273 | cleaning an optional value a third time changes nothing |
| `DossierList.ResaveIsStable` | list_dossier.py:259-275 | after two saves of the edit form a row no longer changes |
| `DossierList.CardOf` | list_dossier.py:185-240 | a card is titled "Dossier " and the number, subtitled "Par <person> - <subject>", and shows the date; a stored reference or observation shows as it is and "Non spécifié" or "Aucune observation" when NULL or empty, so neither is ever blank; the period reads "<start> au <end>" with "Non spécifié" standing in for each missing bound |
| `DossierList.SavedCardReference` | list_dossier.py:223-226 | on the card of a saved dossier, a reference left empty or blank in the form shows "Non spécifié", any other shows stripped |

## Left out

- The Flet user interface is not modelled: widgets, styles, dialogs, date pickers, snackbars and `page.update`. Only the computed strings and row sequences are.
- Connections, cursors and driver errors are not modelled. A failed connection ends a handler before any query, so it is outside the model.
- DDL and table creation are not modelled, and neither are `archive_app.py`, `setup_initial_tables.py` and `check_cnx.py`. These are persistence and connection plumbing.
- The real clock is a `today` parameter. Oracle DATE values are taken at midnight, so `date_fin > SYSDATE` becomes "the end is a later day".
- Python's lenient `strptime` is not modelled. It also accepts non-padded months and days; the model accepts only canonical `YYYY-MM-DD`, and every other non-empty text is a rejected date.
- A rejected date in the middle of a loop is modelled as a failed view. The lines already added before it are not modelled.
- The result list widgets (`display_results`) are not modelled. The model keeps the rows they show.
- UPDATE, DELETE and INSERT in `list_dossier.py` are not modelled. Only the validation and clean-up of `save_dossier` and the form `open_edit_dialog` fills are.
- Unicode case folding is not modelled. SQLite's `UPPER` and `LIKE` fold ASCII only, and Oracle is given the same rule.
- The dossier card's date and the `COUNT(*) OVER()` column are carried as plain values.
- `DossierList.Run`: states only that the state stays valid, because with the code as written accuracy is not kept (`DossierList.StaleRunCounterexample`); `DossierList.RunIntended` states accuracy for the corrected wiring.
- `CarsSqlite.BirthShown` and `CarsOracle.BirthShown` give an organisation a placeholder value; an organisation's sheet has no birth-date field, so it is never displayed.
- `Like.Like` is the reference definition of the SQL `LIKE` operator, which the databases implement; its meaning is stated by the `Like` lemmas above rather than by a contract of its own.
- `CarsOracle.Search`: states which rows are listed and that vehicles come first, but not that each group keeps table order, because Oracle promises no order without `ORDER BY`.
- `CarsSqlite.ExactPlateMatch`: states only that the row it returns matches, because `fetchone` on a query without `ORDER BY` promises no particular row; the body happens to take the first in table order.
- `DossierStore.EveryMatchOnSomePage`, `DossierStore.SearchDossiers`, `DossierList.LoadAll`, `DossierList.Search`, `DossierList.Accurate`, `DossierList.StepIntended` and `DossierList.RunIntended`: every page is a window of one fixed order of the rows, so tied keys are broken the same way on every page. SQL does not promise this across separate `LIMIT ? OFFSET ?` queries. Ties are common here, because the seeded rows share one `created_at`. With another tie order on each query, a row could appear on two pages or on none, and that is not modelled.
- `CarsSqlite.BroadSearch`: states a sorted permutation of the matches but not how equal `(type, libelle)` keys are ordered, which SQLite leaves unspecified.

## Findings

| source | as written | input that shows it | evidently intended | confidence | as-written member | corrected member |
|---|---|---|---|---|---|---|
| list_dossier.py:566, 600, 612 | the "first page" button calls `change_page(1)` and the "last page" button calls `change_page(total_pages)`, and `change_page` adds every int to the current page | page 2 of 3 (30 dossiers): "first page" goes to page 3; "last page" from page 1 targets page 1 + 3 and does nothing | "first page" goes to page 1 and "last page" to the last page, as their tooltips say | not executed | `DossierList.Press` (with `DossierList.FirstPageActsAsNext`, `DossierList.LastPageNeverMoves`, `DossierList.FirstPageCounterexample`) | `DossierList.PressIntended` (with `DossierList.IntendedButtonsLand`) |
| list_dossier.py:118-157, 617, 633 | a new search keeps `current_page`, so its offset can lie past the last match; the empty page then sets `total_items` to 0, and later reloads keep the wrong total | eleven dossiers, one numbered "D1" and ten with empty texts: after the first load, "next page" goes to page 2; a search for "D1" then shows nothing and the total reads 0 | a new query starts from page 1, so its matches are shown and counted | not executed | `DossierList.Search` and `DossierList.Step`/`DossierList.Run` (with `DossierList.SearchKeepsStalePage`, `DossierList.StaleRunCounterexample`) | `DossierList.SearchIntended`, `DossierList.LoadIntended` and `DossierList.StepIntended`/`DossierList.RunIntended` (with `DossierList.NewSearchShowsMatches`, `DossierList.NewSearchRunShowsMatch`) |
| list_dossier.py:118-122, 136-139, 616-617 | during a search, a page change or reload goes through `search_dossiers`, which reads `search_field.value.strip()` again; text typed but not submitted replaces the active query | a query with two pages is submitted; other text that matches nothing is typed without submitting; "next page" then searches that text from page 2, shows nothing and sets the total to 0 | a page change or reload keeps showing the submitted query; only a submit changes it | not executed; medium, the behaviour may be deliberate | `DossierList.Load`/`DossierList.Press` (with `DossierList.NextPageSearchesFieldText`) | `DossierList.LoadIntended`/`DossierList.PressIntended` (with `DossierList.NextPageKeepsActiveQuery`) |
