# Employee-records ETL job, modelled in Dafny

The job reads an employee workbook into a table and cleans it, then writes
the result to a database table. Cleaning has eight steps:

1. Deduplicate by `ID`, keeping the first row.
2. Drop four sensitive columns.
3. Derive `Work Hours` from `Contract Type`.
4. Derive `Age` and `Month of Birth` from `Date of Birth`.
5. Rename `Address` to `City`.
6. Replace `IT` and `USA` by their long forms.
7. Give eight columns a text or category type.
8. Give up with no table when a column a step needs is missing.

The job object (`ETLPipeline`) chains extract, transform and load. It stops at the first stage that returns nothing.

The model has five modules:

- `Wrappers` (wrappers.dfy): the `Option` type used for absent results.
- `Helper` (helper.dfy): the two helpers of helper.py, as pure functions. These are the contract-type hours and the age from a birth date.
- `Frames` (frames.dfy): the slice of a data-frame library the job uses, in two forms.
  - Values: a `Table` with ordered, distinct column names, rows that map each column to a `Cell`, and a type tag per column. It has one reference function per operation: keep-first deduplication, drop, assign, rename, replace, retype, and month names.
  - A `DataFrame` class: its fields are updated in place by methods. Each method is proved to leave exactly the value the reference function gives. The deduplication is a loop over a set of keys already seen.
- `Transform` (transform.dfy): the transform stage as a function on tables, `Transformed`, built from the reference functions in the source's step order. The lemmas about it say when it returns a table, and what that table's columns, tags and rows are. `TransformAsWritten` models the source where it raises instead of returning, which the corrected `Transformed` does not do (see Findings).
- `Pipeline` (pipeline.dfy): the `ETLPipeline` class. The workbook read and the database write are outside the model:
  - what the read produced is a parameter (a sheet, a missing file, or empty data);
  - each stage the job runs is appended to a call log field;
  - a load records the table and the destination it was given.

  `Transform` runs the steps on a copy of the frame through the `DataFrame` methods. It is proved to return exactly `Transformed`. `RunPipeline` is proved to take exactly the steps `RunCalls` lists and to end with the report `RunReport` gives.

The current date enters only through its year, `todayYear`, passed as a parameter.

## Model

| member | source | states |
|---|---|---|
| Helper.SetHours | helper.py:13-18 | 40 exactly for "Full-time", 20 exactly for "Part-time", 0 exactly for every other contract type |
| Helper.SetHoursRange | helper.py:4-18 | the hours are always one of 0, 20, 40 |
| Helper.AgeRecoversBirthYear | helper.py:28-29 | subtracting the age from the current year gives back the birth year |
| Helper.AgeIgnoresMonthAndDay | helper.py:28-29 | two birth dates in the same year give the same age, whatever their month and day |
| Helper.AgeAntitone | helper.py:28-29 | a later birth year never gives a greater age, and a strictly later one gives a strictly smaller age |
| Helper.AgeExample | helper.py:21-29 | someone born in 1990 is 34 in 2024, whatever the month and day |
| Frames.KeepFirst | pipeline.py:50 | deduplication keeps no more rows than it is given, and only rows from its input |
| Frames.InKeys | pipeline.py:50 | every row's key is among the keys of the table |
| Frames.FirstIndex | pipeline.py:50 | the first row holding a given key: its key is that key and no earlier row has it |
| Frames.KeysSnoc | pipeline.py:50 | appending a row adds exactly its key to the keys |
| Frames.KeepFirstKeys | pipeline.py:50 | deduplication loses no key |
| Frames.KeepFirstUnique | pipeline.py:50 | no two kept rows share a key |
| Frames.KeepFirstCount | pipeline.py:50 | exactly one row is kept per distinct key |
| Frames.KeepFirstIsFirst | pipeline.py:50 | each kept row is the first row of the input that carries its key (keep="first") |
| Frames.KeepFirstOrdered | pipeline.py:50 | the kept rows are a subsequence of the input, in the input's order |
| Frames.SubsequenceSnoc | pipeline.py:50 | appending the same row to both sides keeps a subsequence a subsequence |
| Frames.SubsequenceExtend | pipeline.py:50 | a subsequence stays one when the longer sequence grows |
| Frames.Deduplicated | pipeline.py:50 | deduplicating fails exactly when the key column is missing; otherwise the columns and tags are kept and the rows are the kept rows |
| Frames.Without | pipeline.py:53-54 | removing names from a column list keeps exactly the names not removed, and keeps them distinct |
| Frames.Dropped | pipeline.py:53-54 | dropping fails exactly when a named column is missing; otherwise exactly those columns go from the column set, every row and the tags, and the row count is kept |
| Frames.WithColumn | pipeline.py:57-59 | assigning a column sets that cell in every row, appends the name only when it is new, and resets its tag |
| Frames.RenameKey | pipeline.py:62 | a renamed key carries the old key's value and leaves every other key alone |
| Frames.RenameInColumns | pipeline.py:62 | renaming to a fresh name keeps columns distinct and moves the name in the column set |
| Frames.Renamed | pipeline.py:62 | renaming a present column moves it in the column set, in every row and in the tags; renaming an absent column changes nothing |
| Frames.Replaced | pipeline.py:66 | substitution keeps columns, tags and row count and works row by row |
| Frames.ReplaceCellChanges | pipeline.py:65-66 | a cell changes exactly when it is a text that is a substitution key, and substituting twice is substituting once |
| Frames.ReplaceIdempotent | pipeline.py:65-66 | with no key mapped to another key, replacing a whole table twice equals replacing it once |
| Frames.ReplacedUnchanged | pipeline.py:66 | a table with no substitutable cell is unchanged by substitution |
| Frames.Retyped | pipeline.py:69-76 | retyping fails exactly when the column is missing; otherwise only that column's tag changes |
| Frames.MonthName | pipeline.py:59 | a month number names one of the twelve English month names |
| Frames.IndexOf | pipeline.py:59 | the first position of a name in a list |
| Frames.MonthNumber | pipeline.py:59 | a name has a month number exactly when it is a month name, and that number names it |
| Frames.MonthNameRoundTrip | pipeline.py:59 | month number to name and back is the identity |
| Frames.DataFrame.constructor | pipeline.py:27 | the new frame holds the given table |
| Frames.DataFrame.Copy | pipeline.py:50 | a fresh frame with the same table (the source rebinds `df` to new frames and never touches the caller's) |
| Frames.DataFrame.Select | pipeline.py:57-59 | reading a column succeeds exactly when it exists and gives that column's cells |
| Frames.DataFrame.DropDuplicates | pipeline.py:50 | fails, changing nothing, exactly when the key column is missing; otherwise leaves exactly the deduplicated table |
| Frames.DataFrame.Drop | pipeline.py:53-54 | fails, changing nothing, exactly when a named column is missing; otherwise leaves exactly the dropped table |
| Frames.DataFrame.Assign | pipeline.py:57-59 | leaves exactly the table with the column assigned |
| Frames.DataFrame.Rename | pipeline.py:62 | leaves exactly the renamed table |
| Frames.DataFrame.Replace | pipeline.py:65-66 | leaves exactly the substituted table |
| Frames.DataFrame.AsType | pipeline.py:69-76 | fails, changing nothing, exactly when the column is missing; otherwise leaves exactly the retagged table |
| Transform.PreparedSome | pipeline.py:50-57 | the first three steps succeed exactly when ID, the four dropped columns and Contract Type are all present |
| Transform.PreparedSteps | pipeline.py:50-57 | the intermediate table after dedup and drop: its columns, rows and tags |
| Transform.PreparedShape | pipeline.py:50-57 | after the first three steps the columns are the input's minus the dropped four plus Work Hours, one row per kept row |
| Transform.PreparedRows | pipeline.py:50-57 | each prepared row is its kept input row without the dropped columns, with Work Hours from its contract type |
| Transform.PreparedKinds | pipeline.py:53-57 | the dropped columns lose their tags and Work Hours has an inferred tag |
| Transform.PreparedDates | pipeline.py:50-58 | the prepared birth dates are all dates or missing exactly when those of the kept input rows are |
| Transform.PreparedCell | pipeline.py:53-57 | a column neither dropped nor derived keeps its cell |
| Transform.DatedResult | pipeline.py:58-59 | Age and Month of Birth are added, each row's computed from its own birth date, and nothing else changes |
| Transform.CanonicalResult | pipeline.py:62-66 | renaming and substitution fail only on an Address/City clash; otherwise Address becomes City in the column set, every row and the tags, and every cell is substituted |
| Transform.TagKindsResult | pipeline.py:69-76 | the eight columns get their text or category tags, and every other tag is kept |
| Transform.TaggedValue | pipeline.py:69-76 | the eight retypings give the table with those tags when all eight columns exist, and nothing otherwise |
| Transform.TaggedResult | pipeline.py:69-76 | the eight retypings succeed exactly when all eight columns exist, and change only tags |
| Transform.MonthNamesNotReplaced | pipeline.py:59-66 | no month name is a substitution key, so substitution never touches Month of Birth |
| Transform.FinishedSteps | pipeline.py:58-76 | the tables the later steps pass through, named |
| Transform.FinishedNamesFrom | pipeline.py:58-62 | the column names after deriving and renaming |
| Transform.FinishedRenamed | pipeline.py:58-66 | without an Address/City clash, the table after deriving, renaming and substituting, with its columns and tags |
| Transform.FinishedSome | pipeline.py:58-76 | the later steps succeed exactly when there is no Address/City clash and the eight tagged columns exist afterwards |
| Transform.FinishedShape | pipeline.py:58-76 | the later steps keep the row count and give the expected column set |
| Transform.FinishedRows | pipeline.py:58-76 | each row after the later steps is its derived, renamed and substituted input row |
| Transform.FinishedKinds | pipeline.py:58-76 | the tags after the later steps |
| Transform.TransformedSteps | pipeline.py:48-79 | a successful transform passed every step, in order |
| Transform.TransformedSome | pipeline.py:48-86 | the transform returns a table exactly when the input has a row, every needed column, Address or City but not both, and every kept birth date is a date or missing |
| Transform.NamesKept | pipeline.py:53-57 | the first three steps neither add nor remove Date of Birth, Address or City |
| Transform.ColumnsNeeded | pipeline.py:53-76 | the tagged columns exist at the end exactly when the five plain ones and Address or City exist at the start |
| Transform.RequiredKept | pipeline.py:53-76 | a plain required column survives to the end exactly when it is in the input |
| Transform.PlainName | pipeline.py:53-76 | the plain required columns are none of the dropped, derived or renamed ones |
| Transform.TransformedNames | pipeline.py:48-79 | the output's columns: the input's minus the dropped four, with Address renamed to City, plus Work Hours, Age and Month of Birth |
| Transform.TransformedKinds | pipeline.py:48-79 | the output's tags as a function of the input's |
| Transform.OutputKindsResult | pipeline.py:69-76 | in the output the four text columns are tagged text, the four category columns category, the derived hours and age inferred, and every other tag is the input's |
| Transform.OutputNamesFrom | pipeline.py:53-62 | the output column names computed from the prepared ones agree with those computed from the input |
| Transform.TransformedRows | pipeline.py:48-79 | the output has one row per kept input row, in order, each exactly the expected row derived from it |
| Transform.RowHasSources | pipeline.py:50-62 | every input row of an accepted table holds the derivation sources and no Address/City clash |
| Transform.ExpectedRowValues | pipeline.py:57-66 | an output row holds the hours, age and month derived from its input row, its substituted Address as City, and every other cell substituted |
| Transform.DerivedRowValues | pipeline.py:53-62 | one row after drop, derive and rename, cell by cell |
| Transform.DatedRowValues | pipeline.py:53-59 | one row after drop and the three derivations: the derived cells come from its contract type and birth date, every other cell is the input's |
| Transform.DerivedRowKeys | pipeline.py:53-62 | the column names of one row after drop, derive and rename |
| Transform.RowBecomesExpected | pipeline.py:53-66 | the later steps turn each prepared row into its expected output row |
| Transform.SubstitutionAgrees | pipeline.py:65-66 | substituting a derived row gives the expected row |
| Transform.ExpectedRowClean | pipeline.py:65-66 | no cell of an output row is a substitution key |
| Transform.ExpectedRowId | pipeline.py:50-66 | an output row's ID is its input row's ID after substitution |
| Transform.TransformedCount | pipeline.py:50 | the output has exactly one row per distinct input ID |
| Transform.TransformedClean | pipeline.py:65-66 | no output cell is left for the substitution to change, so substituting again changes nothing |
| Transform.TransformedIds | pipeline.py:50-66 | each output row carries its source row's substituted ID; when no ID is a substitution key, output IDs are distinct |
| Transform.KeepFirstOfThree | pipeline.py:50 | of three rows where only the first two share a key, deduplication keeps the first and the third |
| Transform.PreparedOfDuplicates | pipeline.py:50-57 | of three rows where the first two share an ID, the first three steps keep the first and the third, each with the hours of its own contract type |
| Transform.DuplicateSheetPrepared | pipeline.py:50-57 | two rows with ID 1 (the first full-time) and one freelance row with ID 2 give two rows: ID 1 with 40 hours and ID 2 with 0 |
| Transform.AsWrittenRaises | pipeline.py:48-86 | as written, the stage raises exactly when the columns the first steps need are present and the birth-date column is not date-typed (some input cell is neither a date nor missing, or no cell is a date); whenever it returns, it returns what the corrected stage returns |
| Transform.KeptDatesTyped | pipeline.py:50-58 | when the birth-date column is date-typed, the table has a row and every kept birth date is a date or missing |
| Transform.AsWrittenRaisesBeyondKept | pipeline.py:50-59 | where the source raises but the corrected stage returns a table, the offending birth date is in a row deduplication drops, or no birth date is a date |
| Transform.SheetWellFormed | pipeline.py:27 | a sheet of rows holding the key, the four dropped columns, a contract type and a birth date is a well-formed table with the columns the first steps need |
| Transform.SheetRaises | pipeline.py:48-86 | such a sheet makes the source raise exactly when its birth dates are not date-typed |
| Transform.SheetFirstRowRejected | pipeline.py:48-86 | on such a sheet whose first row's birth date is not a date, the corrected stage returns no table |
| Transform.KeepFirstPrefix | pipeline.py:50 | deduplication always keeps the first row |
| Transform.KeepFirstOfTwo | pipeline.py:50 | of two rows sharing a key, only the first is kept |
| Transform.PreparedKeepsFirstDate | pipeline.py:50-58 | of two rows sharing an ID, only the first one's birth date reaches the birth-date derivations |
| Transform.TextBirthDateRaises | pipeline.py:58-86 | on a one-row sheet whose birth date is the text "unknown", the source raises and the corrected stage returns no table |
| Transform.EmptySheetRaises | pipeline.py:44-86 | on a sheet with a header and no rows, the source raises and the corrected stage returns no table |
| Transform.BlankBirthDateRaises | pipeline.py:58-86 | on a one-row sheet whose birth date is blank, the source raises |
| Transform.DroppedTextBirthDateRaises | pipeline.py:50-86 | two rows with ID 1, the first with a date and the second with the text "unknown": the source raises although every birth date the derivations read is a date |
| Pipeline.RunCalls | pipeline.py:122-130 | a run takes one to three steps and always starts with extract |
| Pipeline.LoadSteps | pipeline.py:124-126 | a load follows the transform exactly when it returned a table, and loads that table |
| Pipeline.RunTransformsIffRead | pipeline.py:122-124 | a run transforms exactly when the workbook was read |
| Pipeline.RunLoadsTransformed | pipeline.py:122-126 | a run loads exactly the table the transform returns, and nothing when it returns none |
| Pipeline.RunLoadIsLast | pipeline.py:122-130 | a load, when it happens, is a run's last step |
| Pipeline.AfterTransform | pipeline.py:124-128 | the steps after a successful extract, whatever the transform returned |
| Pipeline.RunReport | pipeline.py:122-130 | a run reports a failed extraction exactly when nothing was read, a failed transformation exactly when the transform returned nothing, and otherwise a load |
| Pipeline.LoadedTableIsClean | pipeline.py:122-126 | any table a run loads came from an acceptable input and has the promised columns and tags, with no substitutable cell |
| Pipeline.ETLPipeline.constructor | pipeline.py:14-15 | a new job holds its database address and has taken no step |
| Pipeline.ETLPipeline.Extract | pipeline.py:17-34 | extract gives a frame exactly when the sheet was read, holding that sheet; a missing file or empty data gives nothing |
| Pipeline.ETLPipeline.Transform | pipeline.py:36-86 | transform gives nothing for a sheet with no rows, and otherwise a fresh frame exactly when `Transformed` gives a table, holding that table |
| Pipeline.ETLPipeline.Prepare | pipeline.py:50-57 | the first three steps on the frame succeed exactly when `Prepared` does and leave its table |
| Pipeline.ETLPipeline.AddBirthFields | pipeline.py:58-59 | adding Age and Month of Birth succeeds exactly when the birth dates are all dates or missing and leaves the dated table |
| Pipeline.ETLPipeline.Canonicalize | pipeline.py:62-66 | rename and substitution succeed exactly when `Canonical` does and leave its table |
| Pipeline.ETLPipeline.TagColumns | pipeline.py:69-79 | the eight retypings succeed exactly when `Tagged` does and leave its table |
| Pipeline.ETLPipeline.Load | pipeline.py:88-107 | load records the table and the destination; a failed write is reported, never raised |
| Pipeline.ETLPipeline.RunPipeline | pipeline.py:109-130 | a run appends exactly the steps `RunCalls` lists and ends with `RunReport`'s report |
| Pipeline.ETLPipeline.TransformAndLoad | pipeline.py:123-128 | after a read, the job transforms, loads only a returned table, and reports which |

## Left out

- Reading the Excel file (`pd.read_excel`) is left out. Its outcome is the `Source` parameter of `Extract`: a sheet, a missing file or empty data. Parsing errors other than those two are not modelled.
- The database write (`create_engine`, `to_sql` with replace) is left out. `Load` records the table, database address and table name. Because the source catches every exception of the write, a failure cannot change the outcome.
- The `DB_URL` read from the environment through dotenv (pipeline.py:9-10) and the `__main__` block are not modelled. The database address is the constructor's argument.
- `datetime.today()` is replaced by its year, the `todayYear` parameter.
- Printed messages are left out, and so are the three exception kinds the transform catches. Each failure is just an absent result. `Report` records which of run_pipeline's three outcomes happened.
- Helper.CalculateAge: it carries no contract of its own. Its properties are the lemmas `AgeRecoversBirthYear`, `AgeIgnoresMonthAndDay`, `AgeAntitone` and `AgeExample`.
- `astype(str)` and `astype("category")` are modelled as a type tag on the column. The cells are not converted; for example, a missing value does not turn into the text "nan".
- Cells are text, integer, date or missing. Floating-point values and pandas dtypes are not modelled, except for the birth-date column below.
- Transform.AsWrittenRaises: the type of the birth-date column is taken to be what the workbook reader infers from its cells: a date type exactly when every cell is a date or missing and at least one is a date. Reader settings that parse text into dates are not modelled.
- pandas index labels are not modelled. The operations keep column positions (a new column goes at the end), but no lemma states the order of the output's columns.
- Renaming Address to City when City already exists would give pandas two City columns. A table here cannot hold duplicate names, so `Transformed` returns nothing in that case.
- Transform.TransformedIds: distinct output IDs are proved only when no ID is a substitution key. The table-wide replace also rewrites the ID column, so IDs "IT" and "Information Technology" would collide after it.
- The corrected stage `Transformed` judges birth dates on the rows deduplication keeps, since only those reach the derivations. A text birth date only in a dropped duplicate row therefore does not stop it. The source raises there (see `DroppedTextBirthDateRaises`), and the corrected stage is deliberately more lenient.
- A birth-date column whose cells are all blank makes the source raise, because `calculate_age` reads the year of a missing value (see `BlankBirthDateRaises`). The corrected stage gives blank ages and month names there, as it does for single blank birth dates in a date column.

## Findings

| source | as written | input that shows it | evidently intended | confidence | as-written member | corrected member |
|---|---|---|---|---|---|---|
| pipeline.py:58-59, 80-86 | a birth date that is not a date (text, say) makes `calculate_age` read `.year` of a string, which raises AttributeError. The handlers catch only ValueError, KeyError and TypeError, so the error escapes transform and run_pipeline. The same text in a dropped duplicate row still leaves the column untyped, and `.dt` at line 59 raises | a sheet with the columns the first steps need and one row whose Date of Birth is the text "unknown" | the documented behaviour for incompatible types: report and return no table, so the run stops before load | not executed | Transform.TextBirthDateRaises | Transform.TransformedSome |
| pipeline.py:44, 59, 80-86 | a sheet with a header and no rows gives columns that hold plain objects, so `.dt.month_name()` at line 59 raises AttributeError, which escapes the handlers. The docstring instead promises that an empty input is reported as invalid | a sheet with every column the first steps need and no rows | report the empty input and return no table | not executed | Transform.EmptySheetRaises | Transform.TransformedSome |
