# Sell-Out dashboard: reconciliation and trend core

This project models the data pipeline behind the Neuma sell-out dashboard
(`Dashboard_SellOut.py`) in Dafny, and proves properties of that model.

The pipeline has these stages:

- **Sales loader.** It picks the sales export from the folder listing and hunts for the header row among the first fifteen raw rows. It then cleans the column labels and applies the synonym table without ever overwriting a canonical column. It also cleans client names, derives the `FECHA_DT` date column and resolves the product-code column `CAI`; a file without one ends the run.
- **Two reference masters.**
  - The zone master maps a client code to its account manager, department, province and district. It is deduplicated on the raw client code and then stripped.
  - The product master maps a product code to its segment, brand, machine family, denomination and DR classification.
- **Reconciliation.**
  - The zone master is left-joined on the stripped client code. Clashing zone columns are dropped, and an unmatched zone field reads `SIN ASIGNAR`.
  - `CAI` is rescued when it went missing.
  - The product master is cut to its known columns, keyed by the stripped code and deduplicated. It is left-joined on `CAI_Clean`, and an unmatched product field reads `OTROS`. Without a master, `CAI_Clean` is the stripped `CAI`, or `SIN CAI`.
- **Sidebar filters.** Seven membership filters apply one after the other. Picking nothing leaves a column unfiltered, and a column the table lacks offers no filter.
- **Trend monitor.**
  - Facts are grouped by client, product code and, when present, denomination and DR classification.
  - Each group gets current and previous quantities for the 6-month, 1-year and 1.5-year windows. These windows end at the latest fact date, or at "now" when no fact has a date.
  - Each group also gets a chosen-year total, its last purchase as epoch milliseconds, and a product description.
- **Trend icon.** The icon of each window is lost, new, up, down, neutral or flat. It is computed for a line, or for a group node from the sums of its lines.

The data model:

- A DataFrame is a `Table.Frame`: ordered labels (duplicates allowed, as in pandas) and rows of `Table.Cell`s that line up with the labels by position.
- A missing value is `Null` and renders as `nan`.
- Dates are integers counting nanoseconds.
- Whatever pandas would do on its own calendar is a parameter. `Dates.Calendar` carries tolerant parsing, first-of-month assembly, `DateOffset` month subtraction and year extraction. Only the laws the window arithmetic needs are assumed of them (`Dates.Valid`).
- Every pandas error the code does not catch is a `Failure`:
  - a label that is absent;
  - a label several columns carry, which makes pandas return a sub-table on which the string methods raise;
  - a merge key that is not unique on each side.
- Inside the loader's `try` such errors become `ReadFailed`. The `st.stop()` for a missing product code becomes `MissingCai`.

Notes on what the code does:

- The text clean-up (strip, upper-case, drop one trailing period) applies to the `CLIENTE` column. The client code `COD.CLIENTE` is only stripped (lines 102 and 200).
- Year and month dates are meant to fall on the first of the month. As written, line 109 makes every such file fail to load; see Findings. The loader the rest of the model builds on (`SalesLoader.LoadRead`) uses the corrected date step; `SalesLoader.LoadReadAsWritten` is the loader exactly as written.
- The hierarchy order does not change the grouping. The monitor always groups by the same key columns (lines 321-325, 340), and the order only steers the presentation grid.
- The grid's rows come out in pandas' sorted group order. The model lists groups in order of first appearance (see Left out).

## Model

| member | source | states |
|---|---|---|
| Sources.IsSalesFile | Dashboard_SellOut.py:53-54 | the file-name test: mentions "Sell Out" or "SO", is .xlsx or .csv, is no "~$" lock file and mentions none of "Zonas", "historico", "CAI" |
| Sources.PickSalesFile | Dashboard_SellOut.py:49-56 | the chosen entry is the first in listing order that names "Sell Out" or "SO", is .xlsx/.csv, is not a lock file and is not a reference file; none is chosen exactly when no entry qualifies |
| Sources.ChooseSheet | Dashboard_SellOut.py:68 | "Sell Out" is read exactly when the workbook has it, else the first sheet; a workbook without sheets gives nothing |
| Sources.ZoneFileIsNotSales | Dashboard_SellOut.py:54 | the zone workbook "Sell Out Zonas.xlsx" is never taken for the sales export although it names "Sell Out" |
| Sources.HistoryFileIsNotSales | Dashboard_SellOut.py:54 | "Sell Out historico.xlsx" names "Sell Out", is .xlsx and is no lock file, yet is refused: the exclusion alone rejects a history workbook |
| Sources.LockFileIsNotSales | Dashboard_SellOut.py:54 | an Office lock file ("~$…") is never taken for the sales export |
| Sources.PlainExportIsSales | Dashboard_SellOut.py:53-54 | a plain "Sell Out 2024.xlsx" is accepted |
| HeaderLocator.ScanFrom | Dashboard_SellOut.py:71-76 | the result is the first row at or after the start, among the first fifteen, holding a sentinel token, or 0 when there is none |
| HeaderLocator.LocateHeader | Dashboard_SellOut.py:71-76 | the header index is below fifteen, every earlier row lacks a sentinel, and a scanned sentinel row exists exactly when the index points at one |
| HeaderLocator.LocateHeaderExact | Dashboard_SellOut.py:71-76 | conversely, row k is chosen whenever it is the first sentinel row among the first fifteen |
| HeaderLocator.LocateHeaderDefault | Dashboard_SellOut.py:71 | with no sentinel in the first fifteen rows the header is row 0 |
| HeaderLocator.ReadWithHeader | Dashboard_SellOut.py:78-79 | re-reading with header k gives row k's labels with repeats renamed as pandas renames them, and one data row per raw row below it, cell for cell; it fails exactly when row k does not exist |
| HeaderLocator.HeaderLabels | Dashboard_SellOut.py:78-79 | a header cell reads as its text, an empty one as "Unnamed: j", one label per cell |
| HeaderLocator.Mangle | Dashboard_SellOut.py:78-79 | a first occurrence keeps its label and the n-th repeat of a label X reads "X.n", positions kept |
| HeaderLocator.MangleCount | Dashboard_SellOut.py:78-79 | after the renaming a label without a period is carried exactly once when the header named it, however often, and not at all otherwise |
| HeaderLocator.RepeatedClientRenamed | Dashboard_SellOut.py:78-79 | a header naming "CLIENTE" twice is read as "CLIENTE", "CLIENTE.1" |
| HeaderLocator.ReadHeaderOnce | Dashboard_SellOut.py:78-84 | a label without a period that the header names, even repeatedly, is carried by exactly one column of the table read |
| HeaderLocator.Fit | Dashboard_SellOut.py:78-79 | a data row comes out at the header's width, missing cells padding a short row |
| HeaderLocator.ThirdOfThree | Dashboard_SellOut.py:72-76 | of three rows of which only the third holds a sentinel, the third is the header |
| HeaderLocator.ThirdRowHeader | Dashboard_SellOut.py:72-76 | a report whose title and year rows precede the label row "Cod.Cliente, Cai, Cantidad" gets row 2 as header: the search is case-insensitive |
| Schema.CleanLabels | Dashboard_SellOut.py:84 | every label is upper-cased and stripped, positions kept |
| Schema.PlannedRenames | Dashboard_SellOut.py:86-96 | a variant is planned for renaming exactly when it is present and its canonical label is absent |
| Schema.Normalize | Dashboard_SellOut.py:91-99 | every column keeps its place; a label changes only when it is a variant whose canonical label is absent, and then it takes that canonical label |
| Schema.CanonicalNotVariant | Dashboard_SellOut.py:86-90 | no canonical label is itself a variant |
| Schema.NormalizeKeepsCanonical | Dashboard_SellOut.py:93-96 | a canonical column present before the pass keeps its label and place: it is never overwritten |
| Schema.NormalizeIdempotent | Dashboard_SellOut.py:86-99 | normalising a normalised label list changes nothing |
| Schema.NormalizeThree | Dashboard_SellOut.py:91-99 | two variants of the same absent canonical label both take it |
| Schema.NormalizeDuplicates | Dashboard_SellOut.py:86-99 | "YEAR" and "ANO" together both become "AÑO", leaving two columns with that label |
| Schema.FirstCodeLike | Dashboard_SellOut.py:112 | the index of the first label starting with "COD" or "MAT", none exactly when no label does |
| Schema.CaiFallback | Dashboard_SellOut.py:111-116 | with "CAI" present labels are untouched; otherwise the first code-like label becomes "CAI" and nothing else changes; the load must stop exactly when there is neither |
| Schema.FallbackTakesClientCode | Dashboard_SellOut.py:112-113 | a file whose "COD.CLIENTE" precedes its material column gets its client codes taken as product codes |
| SalesLoader.DropFinalDot | Dashboard_SellOut.py:102 | at most one final period is removed, and one is removed exactly when the text ends with one |
| SalesLoader.CleanClient | Dashboard_SellOut.py:102 | the cleaned name is upper-case, starts with no blank, and is the stripped upper-cased text less one final period exactly when that text ends with one |
| SalesLoader.CleanClientOneDot | Dashboard_SellOut.py:102 | only one period goes: a name followed by a period cleans to the upper-cased name, whatever periods it ends with |
| SalesLoader.CleanClientIgnoresCase | Dashboard_SellOut.py:102 | upper-casing first does not change the cleaned name |
| SalesLoader.Normalized | Dashboard_SellOut.py:84-99 | relabelling keeps every row and gives the cleaned, normalised labels |
| SalesLoader.CleanClients | Dashboard_SellOut.py:101-102 | the load fails exactly when several columns are labelled "CLIENTE"; otherwise only the "CLIENTE" cells change, each to its cleaned text |
| SalesLoader.ToNumber | Dashboard_SellOut.py:107-108 | a number reads as itself, text as its integer value when it is one and as not-a-number otherwise, a missing cell as not-a-number |
| SalesLoader.ToNumberReadsPrinted | Dashboard_SellOut.py:107-108 | a number written out as text is coerced back to that number |
| SalesLoader.DateCell | Dashboard_SellOut.py:105 | a date cell reads back as the date it was made from, a missing one as NaT |
| SalesLoader.DatesFromText | Dashboard_SellOut.py:104-105 | each row's date is the tolerant parse of its "FECHA" cell, one row per fact row |
| SalesLoader.DatesFromYearMonth | Dashboard_SellOut.py:106-109 | each row's date is the first of its coerced month, with 0 for an unreadable year and 1 for an unreadable month |
| SalesLoader.DeriveDates | Dashboard_SellOut.py:104-109 | (corrected) "FECHA" wins over year and month, and a repeated label in the chosen branch fails the load; without either, the table is unchanged |
| SalesLoader.MissingUnits | Dashboard_SellOut.py:109 | a unit is missing exactly when it is year, month or day and no label stands for it, either as written or lower-cased |
| SalesLoader.DeriveDatesAsWritten | Dashboard_SellOut.py:109 | as written, the year/month branch fails when the column labels do not name year, month and day units, and otherwise agrees with the corrected derivation |
| SalesLoader.SpanishLabelsNameNoUnit | Dashboard_SellOut.py:109 | among "AÑO", "MES", "DAY" no label names the year unit |
| SalesLoader.EnglishLabelsNameAllUnits | Dashboard_SellOut.py:109 | had the columns been labelled "YEAR", "MONTH", "DAY", no unit would be missing |
| SalesLoader.DeriveDatesAsWrittenFails | Dashboard_SellOut.py:109 | as written, every file that reaches the year/month branch fails to load |
| SalesLoader.DeriveDatesYearMonth | Dashboard_SellOut.py:106-109 | corrected: a file with one "AÑO", one "MES" and no "FECHA" loads, each date being the first of its month |
| SalesLoader.ResolveCai | Dashboard_SellOut.py:111-116 | the load stops, naming the file, exactly when the fallback finds no product code; otherwise rows are kept and "CAI" exists |
| SalesLoader.DateColumnKeepsCodes | Dashboard_SellOut.py:104-116 | adding the date column never changes whether a product code is found |
| SalesLoader.LoadRead | Dashboard_SellOut.py:81-118 | (corrected date step) a successful load keeps one row per data row and has "CAI"; the missing-code stop names the file and happens only, and always, when the normalised labels hold neither "CAI" nor a code-like label |
| SalesLoader.LoadReadAsWritten | Dashboard_SellOut.py:81-122 | as written, every table dated only by "AÑO" and "MES" is given up on (the handler at 120-122 returns nothing), and every other table loads exactly as with the corrected date step |
| SalesLoader.LoadSales | Dashboard_SellOut.py:42-125 | no file or an unreadable file gives no table; a loaded table has "CAI" and one row per raw row under the located header |
| Dates.DateOf | Dashboard_SellOut.py:334 | only a date cell holds a date; anything else compares as NaT |
| Dates.EpochMs | Dashboard_SellOut.py:352 | the milliseconds are the nanoseconds truncated toward zero, as `int()` does |
| Dates.EpochMsZero | Dashboard_SellOut.py:352 | a last purchase shows 0 exactly when it lies within a millisecond of the epoch |
| Dates.EpochMsMonotone | Dashboard_SellOut.py:352 | a later instant never gets a smaller millisecond stamp |
| Masters.ZoneLabels | Dashboard_SellOut.py:145-148 | labels are stripped and upper-cased, and both spellings of the account-manager label become "ACCOUNT MANAGER" |
| Masters.ZoneView | Dashboard_SellOut.py:145-152 | the projection keeps every row and carries the client code as often as the relabelled sheet does |
| Masters.ZoneViewKeyCount | Dashboard_SellOut.py:150-154 | the allow-list names the client code once, so the projection neither adds nor loses copies of it |
| Masters.ZoneColumnsInOrder | Dashboard_SellOut.py:150-152 | the zone master holds exactly the allowed columns the sheet has, in allow-list order |
| Masters.LoadZoneSheet | Dashboard_SellOut.py:141-157 | a master is produced exactly when the relabelled sheet has one client-code column, and it is the projection deduplicated and then stripped |
| Masters.LoadZones | Dashboard_SellOut.py:140-160 | no sheet gives no master; otherwise as the sheet loader |
| Masters.DedupThenStrip | Dashboard_SellOut.py:155-156 | the rows kept are the first row of each raw key, in order, each with its key stripped |
| Masters.DedupThenStripRows | Dashboard_SellOut.py:155-156 | kept row k is the k-th first-occurrence row with its key stripped |
| Masters.ZoneRowsFirstOccurrences | Dashboard_SellOut.py:155 | kept rows have distinct raw codes, each the first row with its code, and every raw code is kept |
| Masters.PaddedCodesCollide | Dashboard_SellOut.py:156 | a code and the same code with a trailing blank are different raw keys with the same stripped key |
| Masters.KeptPairCollides | Dashboard_SellOut.py:155-156 | two kept rows of a one-column table come out with the stripped codes of the first two rows |
| Masters.StrippedKeysCanRepeat | Dashboard_SellOut.py:155-156 | because deduplication precedes stripping, two raw codes that strip alike both survive as the same code |
| Masters.FirstKeyLike | Dashboard_SellOut.py:180 | the index of the first label containing "CAI" or "COD", none exactly when no label does |
| Masters.RenamedProductLabels | Dashboard_SellOut.py:171-178 | labels are cleaned and the three fixed renames applied, positions kept |
| Masters.ProductLabels | Dashboard_SellOut.py:171-181 | every column carrying the first key-like label becomes "CAI"; with no key-like label nothing more changes |
| Masters.ProductKeyPresent | Dashboard_SellOut.py:180-181 | the product master has "CAI" exactly when some cleaned label names "CAI" or "COD" |
| Masters.LoadProducts | Dashboard_SellOut.py:168-184 | a master exists exactly when the sheet does, with its rows unchanged and the relabelled labels |
| Join.Matches | Dashboard_SellOut.py:202 | the right rows matching a key value all carry it, and are no more than the rows |
| Join.MatchesFrom | Dashboard_SellOut.py:202 | every match is one of the right rows |
| Join.MatchesCover | Dashboard_SellOut.py:202 | every right row carrying the key value is a match |
| Join.MatchesUnique | Dashboard_SellOut.py:202 | with distinct right keys a value has at most one match |
| Join.MatchesNone | Dashboard_SellOut.py:202 | a value no right row carries has no match |
| Join.JoinRow | Dashboard_SellOut.py:202 | a left row gives one output row per match (its non-key cells appended), or one row padded with missing cells; every output row starts with the left row |
| Join.LeftJoin | Dashboard_SellOut.py:202 | the merge fails exactly when the key is not carried once on each side; otherwise each left row in order gives its block, never fewer rows than the left |
| Join.LeftRowsKept | Dashboard_SellOut.py:202 | every left row appears in the output as the start of its first output row |
| Join.BlockAt | Dashboard_SellOut.py:202 | the block of left row i is its join with its matches |
| Join.UnmatchedBlock | Dashboard_SellOut.py:202 | a left row nothing matches gives itself padded with missing cells |
| Join.UnmatchedPadded | Dashboard_SellOut.py:202 | a left row whose key no right row carries is followed by missing cells only |
| Join.RightCells | Dashboard_SellOut.py:232 | with unique right keys a left row gets one right row's width of cells, all missing when no right row has its key |
| Join.UniqueRightKeys | Dashboard_SellOut.py:202 | with distinct right keys the merge has exactly one row per left row: the left row then its match's cells or missing cells |
| Join.LeftLabelsKept | Dashboard_SellOut.py:202 | with an empty left suffix the left labels come first, unchanged |
| Join.LeftCellsKept | Dashboard_SellOut.py:202 | with distinct right keys output row i starts with left row i, cell for cell |
| Join.UnmatchedCellsMissing | Dashboard_SellOut.py:202 | with distinct right keys an unmatched left row has a missing cell in every right-hand column |
| Join.JoinKeepsKey | Dashboard_SellOut.py:232 | the key column keeps its own label in the output |
| Join.DedupUnique | Dashboard_SellOut.py:229 | after deduplicating on a column its values are distinct |
| Join.JoinFillKeepsLeft | Dashboard_SellOut.py:232-235 | filling the merged table keeps one row per left row and every left cell, a listed column's missing cells reading the sentinel |
| Table.KeepFirst | Dashboard_SellOut.py:155 | the positions kept are increasing and are exactly the first occurrence of each value |
| Table.DedupOn | Dashboard_SellOut.py:229 | deduplication keeps the first row of each value, in order, leaving distinct values |
| Table.SelectColumns | Dashboard_SellOut.py:151-152 | selecting by a list gives each wanted label the table carries, in list order |
| Table.DropWhere | Dashboard_SellOut.py:203-204 | dropping keeps every row, leaves no dropped label, and is the table restricted to the unmarked columns' positions, in increasing order, each with its cells |
| Table.DropWhereKeepsUnmarked | Dashboard_SellOut.py:203-204 | every column whose label is not dropped survives, cells and all |
| Table.FillAll | Dashboard_SellOut.py:206-207 | only the listed columns' missing cells change, to the sentinel, and afterwards none of them is missing |
| Table.StripInto | Dashboard_SellOut.py:216 | the target column holds each row's source cell as stripped text, overwriting or appending, all else unchanged |
| Reconcile.StripClientCodes | Dashboard_SellOut.py:200 | every client code is stripped in place and every other cell is unchanged |
| Reconcile.ZoneMerge | Dashboard_SellOut.py:202-204 | the zone merge succeeds exactly when both sides carry one client-code column, never loses a fact row, and leaves no suffixed zone column |
| Reconcile.JoinZones | Dashboard_SellOut.py:202-207 | after the merge and fill no zone field has a missing cell |
| Reconcile.ZoneStep | Dashboard_SellOut.py:199-207 | without client codes the facts pass through; the step fails exactly on a repeated client-code column or a zone master without one; with zones no zone field is missing |
| Reconcile.ZoneStages | Dashboard_SellOut.py:199-207 | with one client-code column on each side the step is the strip followed by the merge, drop and fill |
| Reconcile.ZoneStepOneRowPerFact | Dashboard_SellOut.py:199-207 | with distinct codes in the zone master the zone step succeeds with exactly one row per fact row |
| Reconcile.MergedKeepsFact | Dashboard_SellOut.py:202-207 | the merged table keeps every fact column and cell in place, zone fields' missing cells reading "SIN ASIGNAR" |
| Reconcile.MergedUnmatched | Dashboard_SellOut.py:202-207 | an unmatched row reads "SIN ASIGNAR" in the zone fields brought in and is missing every other brought cell |
| Reconcile.ZoneStepFactWins | Dashboard_SellOut.py:202-207 | a fact column clashing with a zone column wins: the fact's columns and cells come first, unchanged but for the stripped code and the fill |
| Reconcile.ZoneStepUnmatched | Dashboard_SellOut.py:202-207 | a fact whose stripped client code the zone master lacks gets "SIN ASIGNAR" in every zone field brought in |
| Reconcile.Rescue | Dashboard_SellOut.py:210-212 | "CAI" exists afterwards exactly when "CAI", "CAI_x" or "CODIGO" existed; only those labels change, with "CAI_x" preferred |
| Reconcile.ZoneStepKeepsCai | Dashboard_SellOut.py:202-212 | the zone step never loses "CAI", so the rescue does nothing after it |
| Reconcile.ViewLabels | Dashboard_SellOut.py:222-225 | the unaccented classification takes the accent only when the accented label is absent, then the fixed renames apply |
| Reconcile.MasterView | Dashboard_SellOut.py:218-225 | the product view holds the known product columns present, in order, relabelled |
| Reconcile.ProductKey | Dashboard_SellOut.py:227 | the key is the first label containing "CAI", or "CAI" when none does |
| Reconcile.KeyedBy | Dashboard_SellOut.py:228-229 | a key not carried once fails; otherwise the table has a stripped "CAI_Clean" with distinct values, no key column, and no more rows than before |
| Reconcile.ProductTable | Dashboard_SellOut.py:218-229 | the product table has one row per stripped code and no more rows than the master |
| Reconcile.ProductStep | Dashboard_SellOut.py:215-235 | a repeated "CAI" fails; a success has "CAI_Clean", never fewer rows than the facts, and no missing product field |
| Reconcile.NoMasterStep | Dashboard_SellOut.py:236-240 | "CAI_Clean" is the stripped "CAI" on every row, or "SIN CAI" when there is no "CAI"; only a repeated "CAI" fails |
| Reconcile.FactCodes | Dashboard_SellOut.py:216 | each fact's "CAI_Clean" is its stripped "CAI" |
| Reconcile.ProductStages | Dashboard_SellOut.py:215-235 | a successful product step is the join with a product table that has one row per stripped code |
| Reconcile.ProductOutputOneRowPerFact | Dashboard_SellOut.py:229-232 | because the product table is deduplicated, the product join keeps exactly one row per fact row |
| Reconcile.ProductStepOneRowPerFact | Dashboard_SellOut.py:215-235 | a successful product step has exactly one row per fact row |
| Reconcile.ProductOutputKeepsFacts | Dashboard_SellOut.py:232-235 | the product join keeps every fact cell in place, product fields' missing cells reading "OTROS" |
| Reconcile.ProductOutputUnmatched | Dashboard_SellOut.py:232-235 | a fact whose stripped code the product table lacks reads "OTROS" in every product field brought in |
| Reconcile.ProductStage | Dashboard_SellOut.py:209-240 | after the zone step, a success has "CAI_Clean" and never fewer rows |
| Reconcile.ZoneStepKeepsRowCount | Dashboard_SellOut.py:199-207 | with distinct zone codes a successful zone step keeps exactly one row per fact row |
| Reconcile.ProductStageOneRowPerFact | Dashboard_SellOut.py:209-240 | a successful product stage keeps exactly one row per row |
| Reconcile.Reconcile | Dashboard_SellOut.py:198-240 | a successful reconciliation has "CAI_Clean" and never fewer rows than the facts |
| Reconcile.ReconcileOneRowPerFact | Dashboard_SellOut.py:198-240 | with distinct client codes in the zone master, a successful reconciliation has exactly one row per fact row |
| Filters.Choices | Dashboard_SellOut.py:251-294 | the seven filters read "Segmento LB", "MARCA", "CLASIFICACIÓN DR", "ACCOUNT MANAGER", "DEPARTAMENTO", "PROVINCIA", "DISTRITO" in that order, no column twice; the classification compares the raw values picked, every other filter compares text |
| Filters.Picked | Dashboard_SellOut.py:255 | `isin`: a cell passes when it equals one of the values picked |
| Filters.TextPicksMatchOnlyText | Dashboard_SellOut.py:253-255 | an option offered through `astype(str)` matches exactly the text cells equal to it, never a number or a missing cell |
| Filters.Where | Dashboard_SellOut.py:255 | the kept rows all satisfy the condition, and every row that does is kept |
| Filters.WhereAll | Dashboard_SellOut.py:255 | a condition every row meets keeps the rows unchanged |
| Filters.WhereWhere | Dashboard_SellOut.py:255-261 | filtering twice is filtering once by both conditions, order kept |
| Filters.FilterOn | Dashboard_SellOut.py:252-255 | one filter fails exactly on a repeated column and otherwise keeps exactly the rows it admits, in order |
| Filters.FilterAll | Dashboard_SellOut.py:251-294 | the block fails exactly when some filter reads a repeated column, and otherwise keeps the labels and never adds rows |
| Filters.FilterAllConjunctive | Dashboard_SellOut.py:251-294 | the sequential filters keep exactly the rows every filter admits, in their original order |
| Filters.NothingPickedKeepsAll | Dashboard_SellOut.py:252-294 | with nothing picked anywhere the table is unchanged |
| Filters.FilterFacts | Dashboard_SellOut.py:249-294 | the filtered table has the same labels and no more rows |
| Windows.WindowOf | Dashboard_SellOut.py:331-332 | the previous start lies before the current start, which lies before the latest date |
| Windows.InAct | Dashboard_SellOut.py:334 | the current bucket: after the current start and not after the latest date; a missing date is in it never |
| Windows.InPrev | Dashboard_SellOut.py:337 | the previous bucket: after the previous start and not after the current start; a missing date is in it never |
| Windows.Buckets | Dashboard_SellOut.py:334-338 | the latest date is current, the current start is previous, no date is in both buckets, and a missing date is in neither |
| Windows.BucketOf | Dashboard_SellOut.py:334-338 | a date is in each bucket exactly within its half-open bounds and nowhere outside the window |
| Windows.LongerWindowCovers | Dashboard_SellOut.py:329-334 | a date current for a shorter window is current for a longer one |
| Windows.All | Dashboard_SellOut.py:329-332 | one window per length, 6, 12 and 18 months |
| Groups.Keys | Dashboard_SellOut.py:340 | the group keys are distinct and complete, each belongs to some fact, and every complete fact key is among them |
| Groups.GroupSumsCoverFacts | Dashboard_SellOut.py:340 | the group sums add up to the sum over all complete-key facts: nothing lost or counted twice |
| Groups.SumWhereAbsent | Dashboard_SellOut.py:343-346 | a group with no fact in the condition sums to zero |
| Groups.LatestWhere | Dashboard_SellOut.py:350 | the latest date among the selected facts is one of their dates and no selected date is later; none exactly when none has a date |
| Trend.BaseLabels | Dashboard_SellOut.py:321-325 | the key is client and "CAI_Clean", then denomination and DR classification exactly when present |
| Trend.Needed | Dashboard_SellOut.py:321-327 | the monitor reads the key columns, the date and the quantity, no label twice |
| Trend.WithClient | Dashboard_SellOut.py:322-323 | "NOMBRE CLIENTE" is copied into a new "CLIENTE" only when "CLIENTE" is absent; that copy fails exactly when the name label repeats |
| Trend.FactsOf | Dashboard_SellOut.py:327 | reading fails exactly when a needed label is absent or repeated; otherwise one fact per row |
| Trend.EndDate | Dashboard_SellOut.py:309-316 | the windows end at the latest fact date, which some fact has, or at now when none has a date |
| Trend.YearChosen | Dashboard_SellOut.py:342-343 | `if anio_ref:`: a year total is computed only for a present, non-zero year |
| Trend.TotalLabel | Dashboard_SellOut.py:342 | "TOTAL AÑO" without a chosen year; with one, the year reads back from the label, which then never equals "TOTAL AÑO" |
| Trend.TotalLabelInjective | Dashboard_SellOut.py:342 | different chosen years give different total-column labels |
| Trend.Describe | Dashboard_SellOut.py:354-357 | the code, then the bar separator and the denomination when the key has one; a code without a bar is read back from its description |
| Trend.LineOf | Dashboard_SellOut.py:340-357 | each window's current and previous quantities are the group's sums over its facts in that bucket; a total only for a chosen year; the last-purchase stamp is the largest stamp among the group's dated facts and belongs to one of them, 0 when none has a date |
| Trend.Lines | Dashboard_SellOut.py:340-357 | one line per group, no more lines than facts |
| Trend.MonitorOf | Dashboard_SellOut.py:309-352 | for each window the lines' current quantities add up to the current quantity of every complete-key fact |
| Trend.BuildMonitor | Dashboard_SellOut.py:301-357 | an empty table shows nothing; otherwise the monitor fails exactly when the client copy fails or a needed column is absent or repeated |
| Trend.ActTotalCoversFacts | Dashboard_SellOut.py:340 | in a window, the lines' current quantities add up to the current quantity of every grouped fact |
| Trend.TotalZeroWithoutYear | Dashboard_SellOut.py:343-346 | a group with no date in the chosen year shows a total of zero |
| Signals.Classify | Dashboard_SellOut.py:404-409 | each icon holds exactly under its own condition, so the six icons partition all quantity pairs |
| Signals.OrZero | Dashboard_SellOut.py:402-403 | the script's zero default: a missing quantity reads as zero, a present one as itself |
| Signals.IconOf | Dashboard_SellOut.py:400-409 | a node without data is blank; otherwise missing quantities read as zero, and a node with neither is neutral |
| Signals.GroupIcon | Dashboard_SellOut.py:400-409 | a group node is never blank, and an empty one is neutral |
| Signals.AllNeutral | Dashboard_SellOut.py:404-409 | a group whose lines are all neutral is neutral |
| Signals.AllLost | Dashboard_SellOut.py:404 | a non-empty group whose lines are all lost is lost |
| Signals.AllNew | Dashboard_SellOut.py:405 | a non-empty group whose lines are all new is new |
| Text.StripIdempotent | Dashboard_SellOut.py:200 | stripping stripped text changes nothing |
| Text.UpperStripCommute | Dashboard_SellOut.py:84 | upper-casing then stripping equals stripping then upper-casing |
| Text.IntRoundTrip | Dashboard_SellOut.py:342 | an integer printed as text parses back to itself |

## Left out

- The Streamlit page is not modelled: the login gate, page layout, messages, the cache decorators and the AG-grid/JavaScript rendering (column definitions, formatters, tree order).
- Files and pandas readers are not modelled. The folder listing, sheet names and raw rows are inputs. CSV and Excel reading is `HeaderLocator.ReadWithHeader` on raw rows. The zone-file name candidates and the existence checks are left out.
- The calendar (`pd.to_datetime`, `DateOffset`, `.dt.year`) is a parameter of type `Dates.Calendar`. "Now" is a parameter.
- The selectbox default (index 0, the latest year) is not modelled. The year select box is the parameter `pick`.
- The hierarchy radio only orders the presentation tree and is not modelled.
- The sidebar's option lists (sorted unique values) are not modelled, only the picked values.
- Trend.Lines: groups come out in order of first appearance rather than pandas' sorted key order, because the grid regroups and re-sorts them anyway.
- Trend.FactsOf: quantities are integers or missing (a missing one adds nothing). A `CANTIDAD` column holding any text is not modelled: pandas then keeps it as objects, the bucket columns of lines 335 and 338 come out as objects that `sum(numeric_only=True)` at line 340 drops (every icon would read neutral), and the year total at line 344 raises on text mixed with numbers. Fractional quantities are not modelled either.
- Table.Render: a timestamp renders as its nanosecond count, not pandas' date text. Floats are not modelled.
- Trend.TotalZeroWithoutYear: the `fillna(0)` at line 346 fills the whole grid, but the model only zeroes the year total. The other columns of a grouped line are never missing.
- Dates.EpochMs: `int(x.timestamp() * 1000)` goes through a float; the model truncates the exact value and ignores float rounding.
- Table.CountCopies: stated only for a label the selection asks for at most once, which holds for every allow-list used.
- Masters.LoadZones: the `except` handler for unreadable zone workbooks is modelled as a missing sheet.
- Masters.LoadProducts: the bare `except: pass` for an unreadable product workbook is modelled as a missing sheet.
- SalesLoader.LoadSales: any other exception inside the loader's `try` (for example one raised by the readers on a malformed file) is not modelled beyond `ReadFailed`.
- SalesLoader.LoadRead: uses the corrected date step, so a table dated only by "AÑO" and "MES" loads, where the code as written gives it up (`SalesLoader.LoadReadAsWritten`, Findings).
- Masters.LoadProducts: header labels are text in the model. In the code a non-text header label (a number such as a year) makes `c.upper()` at line 171 raise, and the bare `except` at 183-184 returns no master; the model returns one.
- Masters.RenamedProductLabels: same restriction as `Masters.LoadProducts`: a non-text label, on which line 171 raises, is not representable.
- Schema.CleanLabels: upper-casing (`Text.Upper`) maps ASCII and Latin-1 letters only; Python's `upper()` also maps letters beyond U+00FF and expands some letters (for example "ß" becomes "SS", so the length can change). Labels using such letters are not modelled faithfully.
- Masters.ZoneLabels: the same Latin-1-only upper-casing as `Schema.CleanLabels`.
- Masters.RenamedProductLabels: the same Latin-1-only upper-casing as `Schema.CleanLabels`.
- SalesLoader.CleanClient: the same Latin-1-only upper-casing as `Schema.CleanLabels`, applied to client names.
- HeaderLocator.Mangle: pandas renames repeats of the raw header values, and when a renamed label such as "X.1" collides with a later header cell it renames that cell again ("X.1.1"); the model renames the rendered labels and does not do the second renaming. A number and its text (2024 and "2024") are one label to the model and two to pandas.
- Filters.FilterOn: the classification's options (line 265) are the column's raw values sorted with `sorted`, which raises on a column mixing text and numbers; option lists are not modelled, so neither is that failure.
- Trend.Describe: the code's text and the denomination are joined as text; a non-text denomination column would make the concatenation at line 355 raise, which is not modelled.
- SalesLoader.ToNumber: only integer text is read as a number; text that `pd.to_numeric` reads as a float (a decimal point, an exponent) coerces to not-a-number in the model.

## Findings

| source | as written | input that shows it | evidently intended | confidence | as-written member | corrected member |
|---|---|---|---|---|---|---|
| Dashboard_SellOut.py:109 | the dates are assembled by `pd.to_datetime` from a frame labelled "AÑO", "MES" and "DAY"; pandas only assembles from columns naming the year, month and day units, and "AÑO"/"MES" name none, so it raises (`errors='coerce'` does not cover this), and the loader's handler discards the whole file (`SalesLoader.LoadReadAsWritten` is the loader with this step) | a sales file with "AÑO" and "MES" columns and no "FECHA" (or "DATE") column | each row's date is the first day of its year and month | not executed | SalesLoader.DeriveDatesAsWrittenFails | SalesLoader.DeriveDatesYearMonth |
