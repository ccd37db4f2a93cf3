# Public opinion survey pipeline — verified model

This project models the extract–transform–load pipeline of a public opinion
survey processor. The pipeline has three steps:

- **Extract.** It stacks the survey tables read from the raw-data directory
  into one dataset. It fails when the directory holds no CSV file.
- **Transform.** It computes the overall policy-support rate, the mean of the
  0/1 `policy_support` column. Then, for each of the five demographic columns
  `gender, race, age_group, education, income`, it runs a group-by. The
  group-by gives each observed category value a respondent count and a
  support rate.
- **Load.** It lays the summary out as a text report: a title block, the
  overall rate, and one section per column.

The modules follow these steps:

- `survey.dfy`, module `Survey`: survey records, the five dimensions, exact
  rates `Rate(num, den)`, and the column statistics. `Mean` is the column mean;
  it is `None` for no records, standing for pandas' NaN. `Select` gives the
  records of one category value. `SupportSum` is the column sum.
- `aggregate.dfy`, module `Aggregate`: the group-by `GroupBy`, a left fold
  over the records. `Transform` is the loop that fills the summary, one column
  at a time.
- `extract.dfy`, module `Extract`: `ExtractData`, with the concatenation
  `Concat` and the `NoCsvFiles` error.
- `report.dfy`, module `Report`: `LoadData`, the loop that appends report lines.
  `Layout` is the line structure it must produce, and lemmas about it give the
  position of every section.

Rates are exact fractions, not floats. A group's rate is the support sum of
its records over their count. The overall rate is undefined (`None`) for an
empty dataset, never 0. The 0/1 nature of `policy_support` is never checked by
the code. The model takes it as the assumption `Binary` wherever a result
depends on it, such as the bounds in [0, 1] and "sum equals supporters".

Two consequences of the code are worth stating:

- `load_data` always prints the overall line, because `transform_data` always
  stores the `overall_support_rate` key. An empty dataset therefore prints
  `nan`. The model always emits the `OverallRate` line, carrying `None` in
  that case.
- For respondents {Male 1, Male 0, Female 1, Female 1} the code computes 3/4,
  with Male 1/2 and Female 2/2 (`Aggregate.FourRespondents`).

## Model

| member | source | states |
|---|---|---|
| `Survey.OverallRate` | src/pipeline.py:73 | The overall mean is undefined exactly when there are no records. Otherwise it is the column sum over the record count; with 0/1 support values that is supporters over respondents, in [0, 1]. |
| `Survey.SupportSumCountsSupporters` | src/pipeline.py:73 | With 0/1 support values, the column sum equals the number of records with support 1, which is at most the record count. |
| `Survey.SupportSumAppend` | src/pipeline.py:73 | The column sum of two stacked tables is the sum of their column sums. |
| `Survey.SupportSumRemoveAt` | src/pipeline.py:73 | Taking one record out of the dataset takes exactly its support value out of the column sum. |
| `Survey.MultisetRemoveAt` | src/pipeline.py:73 | Taking the record at one position out of the dataset removes one copy of it from the multiset of records. |
| `Survey.SupportSumPermutation` | src/pipeline.py:73 | The column sum depends only on the multiset of records. |
| `Survey.MeanPermutation` | src/pipeline.py:73 | The overall rate is the same for any reordering of the records. |
| `Survey.SelectAppend` | src/pipeline.py:77 | The records of one category value in two stacked tables are those of the first, then those of the second. |
| `Survey.SelectMultiset` | src/pipeline.py:77 | A group contains each record of its category value as often as the input does, and no other record. |
| `Survey.SelectPermutation` | src/pipeline.py:77 | Reordering the input only reorders each group. |
| `Aggregate.AddValues` | src/pipeline.py:77 | Counting one more record adds its category value to the breakdown's values and nothing else. |
| `Aggregate.AddDistinct` | src/pipeline.py:77 | Counting one more record keeps every value on a single row. |
| `Aggregate.AddLookup` | src/pipeline.py:77 | Counting one more record adds one respondent and its support to the row of its value, creating the row if absent. Every other row is unchanged. |
| `Aggregate.AddTotal` | src/pipeline.py:77 | Counting one more record raises the sum of the respondent counts by one. |
| `Aggregate.ExpectedStep` | src/pipeline.py:77 | One more record changes the expected group of its own value only, by one respondent and its support. |
| `Aggregate.GroupBy` | src/pipeline.py:77-81 | The group-by has one row per value. For each value, its row (or its absence) is exactly the count and mean of the records with that value. The counts sum to the number of records. |
| `Aggregate.SelectNonEmpty` | src/pipeline.py:77 | A value has records exactly when it is observed in the column. |
| `Aggregate.SelectKeepsBinary` | src/pipeline.py:77 | With 0/1 support values in the dataset, every group also has only 0/1 support values. |
| `Aggregate.ObservedValuesExactlyOnce` | src/pipeline.py:77-81 | A breakdown lists exactly the values observed in the column, each once. It is empty exactly when the dataset is empty. |
| `Aggregate.GroupRows` | src/pipeline.py:77-80 | Every row's respondent count is the number of records with its value, at least 1. Its rate is their support sum over that count. With 0/1 values, the rate is supporters over size, in [0, 1]. |
| `Aggregate.ExpectedPermutation` | src/pipeline.py:77-80 | Reordering the records leaves each value's expected count and rate unchanged. |
| `Aggregate.GroupByPermutation` | src/pipeline.py:77 | Reordering the records leaves the set of values unchanged, and every value's count and rate too. |
| `Aggregate.FourRespondents` | src/pipeline.py:73-81 | Worked example: two men (one supporting) and two supporting women give 3/4 overall. By gender they give exactly two rows: 1/2 and 2/2. |
| `Aggregate.Transform` | src/pipeline.py:72-83 | The summary holds the overall mean and a breakdown under each of the five columns, equal to that column's group-by. Each breakdown's counts sum to the record count. An empty dataset gives an undefined overall rate and empty breakdowns. |
| `Extract.ConcatLength` | src/pipeline.py:50 | The combined dataset has as many rows as all files together. |
| `Extract.ConcatAppend` | src/pipeline.py:50 | Concatenating two runs of tables is concatenating their concatenations. |
| `Extract.ConcatStep` | src/pipeline.py:47-50 | Adding one more file's table at the end appends its rows after all rows so far. |
| `Extract.ConcatInOrder` | src/pipeline.py:46-50 | Each file's rows appear whole, after all rows of earlier files and before all rows of later ones. |
| `Extract.ExtractData` | src/pipeline.py:43-50 | No input file is the error `NoCsvFiles` (the only failure). Otherwise the result is the in-order concatenation of the per-file tables, with the summed row count. |
| `Report.LoadData` | src/pipeline.py:104-125 | The lines built are the report layout: the title block, the overall rate line, then one section per column in the fixed order. |
| `Report.SectionsAppend` | src/pipeline.py:116-125 | The sections for two lists of columns are those of the first list followed by those of the second. |
| `Report.SectionsLength` | src/pipeline.py:104-125 | The preamble and the first k sections take exactly `SectionStart(s, k)` lines. |
| `Report.SectionsAround` | src/pipeline.py:116-125 | The sections for a list of columns are the earlier sections, then the k-th column's section, then the later ones. |
| `Report.SectionAt` | src/pipeline.py:116-125 | The k-th column's section starts after the preamble and all earlier sections. The lines from there to the next section's start are exactly that column's section, and the report is long enough to hold them. |
| `Report.SectionLines` | src/pipeline.py:117-125 | A column's section is its "Support by" header, then one line per breakdown row in breakdown order, then a blank line. |
| `Report.ReportLength` | src/pipeline.py:104-125 | The report ends right after the last column's blank line. |
| `Report.HeadersAppend` | src/pipeline.py:116-117 | The headers of two stacked line lists are those of the first list, then those of the second. |
| `Report.EntriesHaveNoHeaders` | src/pipeline.py:118-124 | Breakdown row lines are never section headers. |
| `Report.SectionsHeaders` | src/pipeline.py:116-125 | The section headers of a run of sections name its columns in order. |
| `Report.HeadersInOrder` | src/pipeline.py:116-117 | The report has exactly five section headers: gender, race, age_group, education, income, in that order. |

## Left out

- Prefect orchestration is not modelled: the task and flow decorators, the run logger and its messages, the `pipeline()` entry point and the `__main__` block. They carry no logic.
- File I/O is not modelled. The model receives the already-parsed tables, one per CSV file, in the order the directory listing returns them. This covers locating the raw-data and docs directories, globbing `*.csv`, `read_csv` (header parsing, type inference), creating the docs directory, and writing the report. The report's lines are the result; joining them with newlines and writing them is not modelled.
- Clock and file naming are not modelled. The generation timestamp is a parameter of `LoadData`. The timestamped report file name and the returned report path are not modelled.
- Number formatting is not modelled. Rates are exact fractions instead of floats. The `:.3f`, `:20` and `:4d` formatting of report lines is kept abstract: the `OverallRate` and `Entry` lines carry the values they print.
- Missing values are not modelled. Every record is complete. pandas' `count`/`mean` skip NaN support values and its group-by drops NaN keys; those cases are not represented.
- Category and 0/1 validation: the code performs none. Records may carry any category string and any integer support value. The bounds in [0, 1] are stated under `Binary`.
- `GroupBy` lists rows in order of first occurrence. pandas sorts the group keys, a library default. No contract states a row order, only that each observed value appears once.
- GroupByPermutation: states that every value's row is the same under reordering, not that the two row sequences are equal. Row order follows the modelled first-occurrence order, which is not the source's sorted order.
- A summary without the `overall_support_rate` key (the `None` default of `summary.get`) cannot arise in the pipeline. `LoadData` therefore always emits the overall line.
