# Chemical Equipment Visualizer: upload, summary and retention core

This project models the backend core of the Chemical Equipment Visualizer in Dafny.

- **Upload.** The `DatasetViewSet.upload` action receives a CSV file of equipment readings with the columns Equipment Name, Type, Flowrate, Pressure and Temperature.
  - It refuses a missing file, a file whose name does not end in `.csv`, a table without every required column, and a table with no complete row.
  - Otherwise it stores a `Dataset` holding a JSON summary: the record count, the mean, minimum and maximum of each measurement, and the count of each equipment type.
  - It stores one `Equipment` row per cleaned row.
  - Finally it deletes every Dataset beyond the five newest. The deletion cascades to their Equipment rows.
- **List.** The `list` action returns the five newest Datasets.

The modules follow the program's structure:

| file | module | what it holds |
|---|---|---|
| `csv.dfy` | `Csv` | The parsed table: cells, rows, the required columns and pandas' per-column typing. |
| `validation.dfy` | `Validation` | The checks made before anything is stored: the missing-column list, `dropna`, and the error messages. |
| `stats.dfy` | `Stats` | Sum, minimum, maximum and mean of a column, over the reals. |
| `summary.dfy` | `Summaries` | The summary dict and the type distribution. |
| `models.dfy` | `Models` | The stored rows, the `Dataset` model instance (a class), the newest-first ordering and the cascade. |
| `store.dfy` | `Database` | The database as a class `Store`. Its methods stand in for `objects.create`, `save`, `bulk_create` and `delete`. |
| `views.dfy` | `Views` | The `upload` and `list` actions, the loop building the Equipment rows, and the trimming loop. |

Three things from outside the core become inputs or abstractions:

- **The parsed CSV.** It arrives as a header and rows. A row maps column names to cells; a cell is a number or text, and an absent key is a missing value. pandas types a column as a whole, so a measurement column whose present cells are not all numbers holds text in every row that has a value there. `Csv.ParsedTable` is the type of such tables, and the upload takes nothing else. `pd.read_csv` raising is an absent table.
- **The time and the key.** The upload time and the primary key come from counters in the store.
- **JSON.** The text of `summary_data` is either the encoding of a summary or any other text.

A refused upload should store nothing. The code, however, creates the Dataset row before computing the statistics, so a refusal raised by the statistics leaves that row behind. `Views.Upload` follows the code. The difference is recorded under Findings, and `Views.UploadAtomic` models the intended behaviour.

## Model

| member | source | states |
|---|---|---|
| Csv.Complete | backend/chemical_equipment/equipment/views.py:73 | A row survives `dropna(subset=required_columns)` exactly when every required column has a value. |
| Seqs.Take | backend/chemical_equipment/equipment/views.py:33 | `queryset[:n]` is the first `min(n, len)` elements, unchanged and in order. |
| Validation.MissingRequired | backend/chemical_equipment/equipment/views.py:63-64 | A column is listed exactly when it is required and absent. The list keeps the order of the required list. It is empty exactly when every required column is present. |
| Validation.MissingRequiredExact | backend/chemical_equipment/equipment/views.py:63-70 | No other list names exactly the absent required columns in the required order. The error therefore lists exactly those columns, in that order. |
| Validation.DropIncomplete | backend/chemical_equipment/equipment/views.py:73 | Every kept row is complete. Each complete row is kept as often as it occurs, with its other columns untouched. Kept rows stay in their original order. |
| Validation.DropIncompleteIdempotent | backend/chemical_equipment/equipment/views.py:73 | Cleaning an already cleaned table changes nothing. |
| Validation.AllCompleteKept | backend/chemical_equipment/equipment/views.py:73 | A table whose rows are all complete is kept whole, so gaps only in other columns never drop a row. |
| Validation.NothingLeftExactly | backend/chemical_equipment/equipment/views.py:73-79 | Cleaning leaves no rows exactly when no row is complete. |
| Validation.CheckUpload | backend/chemical_equipment/equipment/views.py:43-79 | Each outcome holds exactly when its condition does: no file; a name not ending in `.csv`; an unreadable `.csv` file; some required column absent, with the error listing the absent ones in order; every column present but no complete row; otherwise success. On success the rows are the non-empty cleaned table. |
| Validation.EndsWith | backend/chemical_equipment/equipment/views.py:52 | A name passes the suffix test exactly when it is some text followed by `.csv`. |
| Validation.UpperCaseSuffixRefused | backend/chemical_equipment/equipment/views.py:52-56 | The test is case-sensitive: `data.CSV` is refused with `File must be CSV format`. |
| Validation.Join | backend/chemical_equipment/equipment/views.py:68 | Joining no parts gives the empty text. Otherwise the text starts with the first part. |
| Validation.JoinAppend | backend/chemical_equipment/equipment/views.py:68 | Joining one more part appends the separator and then that part. |
| Validation.JoinLength | backend/chemical_equipment/equipment/views.py:68 | The joined text is as long as all parts plus one separator per gap. |
| Validation.Message | backend/chemical_equipment/equipment/views.py:45-131 | Every error text is non-empty. It starts with `Missing required columns: ` exactly when the error is a missing-column error. |
| Validation.MessagesTellErrorsApart | backend/chemical_equipment/equipment/views.py:43-79 | Equal error texts come from the same kind of error. Apart from the missing-column list, they come from the same error. |
| Validation.MissingTemperature | backend/chemical_equipment/equipment/views.py:63-70 | A CSV without Temperature is refused with the message `Missing required columns: Temperature`. |
| Validation.OneRowMissingPressure | backend/chemical_equipment/equipment/views.py:73 | Of three rows, the middle one without a pressure is dropped and the other two keep their order. |
| Csv.TextSpreads | backend/chemical_equipment/equipment/views.py:60 | In a table typed by `pd.read_csv`, text in one row's measurement cell means text in that column of every row with a value there. |
| Stats.Min | backend/chemical_equipment/equipment/views.py:95 | The minimum is a value of the column and no value is below it. |
| Stats.Max | backend/chemical_equipment/equipment/views.py:96 | The maximum is a value of the column and no value is above it. |
| Stats.Mean | backend/chemical_equipment/equipment/views.py:91 | The mean times the count is the sum. |
| Stats.MeanWithin | backend/chemical_equipment/equipment/views.py:91-93 | A lower and an upper bound on every value bound the mean. |
| Stats.MeanBetween | backend/chemical_equipment/equipment/views.py:91-100 | min <= mean <= max. |
| Summaries.StatsOf | backend/chemical_equipment/equipment/views.py:91-100 | For one column: min and max are attained, bound every value and bound the mean. The mean is the sum over the count. |
| Summaries.Distribution | backend/chemical_equipment/equipment/views.py:94 | The keys are exactly the distinct Type values. Each count is the number of occurrences of that exact value. |
| Summaries.DistributionTotal | backend/chemical_equipment/equipment/views.py:94 | The counts of the distribution add up to the number of rows. |
| Summaries.SummaryOf | backend/chemical_equipment/equipment/views.py:89-101 | `total_count` is the number of cleaned rows. For each measurement, avg is the column's sum divided by the row count, min and max occur in the column, min <= every value <= max, and min <= avg <= max. The distribution keys are the Types present, with their exact counts. |
| Summaries.Summarize | backend/chemical_equipment/equipment/views.py:89-101 | With pandas 2.0 or later, the statistics fail exactly when some measurement cell of the cleaned rows holds text. Otherwise they are the summary of the rows. `Views.TextColumnFailsStatistics` restates this over the whole parsed table. |
| Summaries.SummaryCounts | backend/chemical_equipment/equipment/views.py:90-94 | The `type_distribution` counts add up to `total_count`, which is the number of cleaned rows. |
| Summaries.PumpsAndValve | backend/chemical_equipment/equipment/views.py:94 | The types Pump, Valve, Pump give the distribution {Pump: 2, Valve: 1}. |
| Models.DecodeSummary | backend/chemical_equipment/equipment/models.py:21-28 | Decoding gives a summary exactly for the text that encodes it. Blank, whitespace-only and undecodable text give the empty mapping and never fail. |
| Models.Dataset.constructor | backend/chemical_equipment/equipment/models.py:6-13 | A new instance has the given filename, `total_records` 0 and a blank `summary_data`. |
| Models.Dataset.GetSummaryData | backend/chemical_equipment/equipment/models.py:21-28 | The instance's summary is a given summary exactly when its stored text encodes that summary. |
| Models.Dataset.SetSummaryData | backend/chemical_equipment/equipment/models.py:30-32 | Only `summary_data` changes, and reading it back gives the stored summary. |
| Models.RemoveById | backend/chemical_equipment/equipment/views.py:123 | After a delete, the rows left are exactly the rows with another key. |
| Models.TakeNewest | backend/chemical_equipment/equipment/models.py:15-16 | The first n rows of the newest-first ordering stay newest-first. Every row left out is older than every row kept. |
| Models.RemoveKeepsOrder | backend/chemical_equipment/equipment/models.py:15-16 | Deleting Datasets keeps the others in newest-first order. |
| Models.PrependNewest | backend/chemical_equipment/equipment/models.py:15-16 | A row newer than all stored rows goes first in the ordering. |
| Models.RemoveIds | backend/chemical_equipment/equipment/views.py:123 | A delete removes exactly its key from the stored keys. |
| Models.RemoveByIdAt | backend/chemical_equipment/equipment/views.py:121-123 | In the newest-first ordering, deleting the key at position k removes that row alone. |
| Models.RemoveAfter | backend/chemical_equipment/equipment/views.py:121-123 | Deleting the first Dataset after the kept prefix leaves the prefix and the rest. |
| Models.ReplaceNewest | backend/chemical_equipment/equipment/views.py:104 | Saving the newest Dataset again changes only its own row. |
| Models.RemoveAbsent | backend/chemical_equipment/equipment/views.py:123 | Deleting a key no row has changes nothing. |
| Models.KeepOwned | backend/chemical_equipment/equipment/models.py:38 | The cascade keeps an Equipment row exactly when its Dataset survives, as many times as before and in the same order. |
| Models.KeepOwnedAll | backend/chemical_equipment/equipment/models.py:38 | When every Equipment row's Dataset exists, the cascade removes nothing. |
| Models.KeepOwnedTwice | backend/chemical_equipment/equipment/models.py:38 | Cascading twice is the same as cascading once to the smaller set of Datasets. |
| Database.Store.constructor | backend/chemical_equipment/equipment/models.py:6-16 | An empty database satisfies the ordering and foreign-key invariant. |
| Database.Store.Create | backend/chemical_equipment/equipment/views.py:82-86 | The new row gets a fresh key and a later time than every stored row, and goes first in the ordering. Its summary is blank. Equipment is unchanged and the invariant is kept. |
| Database.Store.Save | backend/chemical_equipment/equipment/views.py:104 | The row with the instance's key takes the instance's values. Every other row and every key is unchanged. |
| Database.Store.BulkCreate | backend/chemical_equipment/equipment/views.py:118 | The new Equipment rows are appended, and every one of them belongs to a stored Dataset. |
| Database.Store.Delete | backend/chemical_equipment/equipment/models.py:38 | The Dataset is removed. Every Equipment row it owns is deleted and no other row is touched. The ordering and foreign-key invariant is kept. |
| Views.BuildEquipment | backend/chemical_equipment/equipment/views.py:107-116 | There is one Equipment row per cleaned row, in row order. Each row copies the name, type and three readings and points at the new Dataset. |
| Views.TrimRetained | backend/chemical_equipment/equipment/views.py:121-123 | Exactly the five newest Datasets remain, in order. Exactly the Equipment of the deleted ones is gone. Every deleted Dataset is older than every survivor. |
| Views.StoreResults | backend/chemical_equipment/equipment/views.py:103-123 | The saved row carries the JSON summary. The new Equipment rows are added, and only the five newest Datasets are kept. |
| Views.Upload | backend/chemical_equipment/equipment/views.py:38-133 | A validation error returns 400 with that error and stores nothing. If the statistics fail, 400 is returned and the blank new Dataset stays. On success, 201 is returned with the new row, which is newest and among at most five survivors, and the Equipment rows are added and cascaded. |
| Views.UploadAtomic | backend/chemical_equipment/equipment/views.py:82-101 | Every 400 leaves the database unchanged. At most five Datasets before means at most five after. The successful outcome is the same as `upload`'s. |
| Views.FailedUploadOverflowsRetention | backend/chemical_equipment/equipment/views.py:82-133 | With five Datasets stored, an upload with text in Flowrate is refused, yet six Datasets remain. |
| Views.List | backend/chemical_equipment/equipment/views.py:31-35 | At most five Datasets, newest first. Every Dataset left out is older than all that are returned. |
| Views.RecordsAgreeWithSummary | backend/chemical_equipment/equipment/views.py:89-118 | As many Equipment rows as `total_count`, which is also the sum of the type counts. Every reading lies between its column's min and max, and every type is a key of the distribution. |
| Views.TextColumnFailsStatistics | backend/chemical_equipment/equipment/views.py:60-101 | An accepted upload's statistics fail exactly when the parsed table has text in a measurement column, even in a row that cleaning dropped. |
| Views.TextFlowrateInDroppedRow | backend/chemical_equipment/equipment/views.py:60-101 | Take three rows where the second has no pressure and text in Flowrate. The first and third rows are kept, their Flowrate cells are text too, and the statistics fail. |

## Left out

- `pd.read_csv` parsing is not modelled. The table arrives already parsed, and a read error is an absent table.
- pandas dtype inference is modelled only as numbers versus text, decided per column (`Csv.ParsedTable`). Integer, boolean and other dtypes are not modelled, and neither is the text pandas would keep for a number in a text column.
- Summaries.Summarize: follows pandas 2.0 and later, where `Series.mean()` on a text (object) column raises, so the upload answers 400. Nothing in the code pins the pandas version. Under pandas 1.x, `mean()` concatenates the texts and converts the result with `float()`. There, Flowrate cells `10` and `20` give an average of 510.0 and the upload answers 201, which the model does not capture.
- Floating-point rounding is not modelled: readings and statistics are reals. This covers the `float(...)` conversions too. Readings of `inf`, `-inf` and `nan` are outside the model as well. `read_csv` parses them as floats and `dropna` keeps the infinities, so a column holding both infinities stores an `avg` of NaN, which no real number represents.
- `json.dumps`/`json.loads` are an abstract injective encoding. Stored text that is valid JSON but was not written by `set_summary_data` is treated as undecodable. The conversion of dictionary keys to strings is not modelled.
- Models.DecodeSummary: returns `None` where the source returns `{}`. The empty mapping and "no summary" are the same value here.
- `Equipment.Meta.ordering` by `equipment_name` (models.py line 46) is not modelled. It only orders serializer output; stored rows keep insertion order.
- Views.BuildEquipment: copies the Equipment Name and Type cells as parsed, and a numeric cell stays a number. Django's `CharField` stores `str(value)`, for example `"101.0"`. Python's rendering of floats as text is not modelled, so `Models.EquipmentRow` and the type distribution keep the parsed cell.
- Equipment primary keys, the `user` foreign key and authentication are not modelled.
- `CharField` length limits are not modelled.
- Django transactions, concurrent uploads and database errors during `delete` are not modelled: the store is sequential.
- Validation.Message: gives the fixed part of each error text. The `str(e)` detail that views.py line 131 appends to "Error processing CSV" is not modelled.
- `generate_pdf` (views.py lines 135-230), the serializers, the admin registration and the desktop client are not part of this model.
- The upload time is a counter that grows with every insert. Clock ties and clock skew are not modelled.

## Findings

| source | as written | input that shows it | evidently intended | confidence | as-written member | corrected member |
|---|---|---|---|---|---|---|
| backend/chemical_equipment/equipment/views.py:82-101 | `Dataset.objects.create` runs before the statistics. When a measurement column holds text, `mean()` raises. The `except` answers 400, but the new Dataset row stays, with a blank summary, no Equipment rows and no trimming. | Five Datasets stored, then `broken.csv` with all five columns and one row whose Flowrate is `unknown`: the answer is 400 and six Datasets remain. | A refused upload stores nothing, and at most five Datasets persist. | not executed; high: the order of the calls is explicit in the code | Views.FailedUploadOverflowsRetention | Views.UploadAtomic |
