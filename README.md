# Partner renewals dashboard: a Dafny model of its data pipeline

The dashboard in `app.py` reads a sheet of used-car dealership partners and shows when each
partner renews. This project models the data path that feeds the dashboard and proves
properties of it:

- **Header matching** (`normalize_colname`, `resolve_column`, `resolve_renewal_column`):
  - column names are compared after stripping, lower-casing and collapsing whitespace;
  - a wanted name finds the *last* header with its normalised form, because a dict
    comprehension overwrites earlier keys;
  - an empty header never counts as a match, because `if match:` treats it as false;
  - the renewal column falls back to column 12 (column M) when no name matches.
- **The required-column check** that `main` runs before normalising, and its agreement with
  the two `KeyError`s raised by `normalize_partners`.
- **`normalize_partners`**:
  - the partner header is renamed to its canonical name;
  - the working renewal date is the ISO parse, filled from the lenient parse;
  - the cohort is decided by CPL (15 or 18 means the Facebook Group cohort);
  - the numeric monthly cost is parsed from the cost text cleaned down to `[0-9.-]`;
  - rows with no partner name or no working date are dropped;
  - `Days to Renewal` runs from the as-of date to the renewal date's midnight;
  - the rows are sorted by (working date, partner name).
- **`renewal_bucket` and the five buckets of `main`**: overdue, 0-30, 31-60, 61-90 and 90+ days.
  For these the model covers:
  - the per-bucket revenue, where a missing cost counts as 0;
  - the two cohort counts of `display_bucket_by_cohort`;
  - the "Renewals by Cohort" table with its Total column.

A table is modelled by position: a header list, and rows of cells, each cell either missing
or a text value. A timestamp is an integer count of nanoseconds, as pandas stores it.

## Modelling notes

- Python's `str.isspace` set is written out exactly. The definition of `lower()` covers the
  Basic Latin and Latin-1 upper-case letters.
- Three pandas parsers are parameters of the model (`Partners.Parsers`): `to_datetime` with
  the ISO format, `to_datetime` without a format, and `to_numeric`.
  - The two date parsers take the whole renewal column, because pandas infers the lenient
    format from the column.
  - The number parser takes one value.
- Selecting by name a label that occurs more than once gives a table of all the columns
  with that label, not one column, and the next step of `normalize_partners` then raises:
  `to_datetime` refuses duplicate keys, `to_numeric` raises `TypeError`, `.str` raises
  `AttributeError`, and `sort_values` reports the label as not unique. `normalize_partners`
  selects four labels by name. In the order they are read, they are:
  - the renewal column;
  - `CPL`;
  - `Monthly subscription cost`;
  - `Dealership Group Name` (read by the sort).

  The model returns `NonUniqueLabel` for the first such label. Live sheets can have repeated
  headers, so this case is reachable.
- `dropna` at `app.py:131` drops only *missing* partner names. A row whose name is the empty
  string is kept, and the model keeps it too (`Partners.NameOf`, `Partners.Complete`).
- The model uses Dafny `real` values for costs, so revenue sums are exact.
  - Python sums floating-point numbers.
  - `format_currency` rounds the sum for display.

## Model

| member | source | states |
|---|---|---|
| ColumnNames.Lower | app.py:33 | `lower()` keeps the length, maps each character through the case map, and leaves no upper-case letter |
| ColumnNames.WordsAreWords | app.py:33 | `split()` yields only non-empty runs of non-whitespace, which stay lower-case when the input is |
| ColumnNames.WordsAroundSpace | app.py:33 | `split()` cuts at every whitespace character: the words of `a + [c] + b` are the words of `a` followed by those of `b` |
| ColumnNames.WordsOfWord | app.py:33 | a single non-empty run of non-whitespace splits into itself |
| ColumnNames.WordsOfAllSpace | app.py:33 | a string of whitespace only has no words; with the two rows above this fixes `split()` on every string |
| ColumnNames.Normalize | app.py:32-33 | `normalize_colname` as the composition strip, lower, split, join; its contract is carried by the lemmas in the rows below |
| ColumnNames.NormalizeWithoutStrip | app.py:32-33 | the `strip()` is redundant: the result is the single-space join of the words of the lower-cased name |
| ColumnNames.NormalizeIgnoresCase | app.py:32-33 | names that lower-case alike normalise alike |
| ColumnNames.NormalizeIgnoresPadding | app.py:32-33 | whitespace added at either end of a name does not change its normal form |
| ColumnNames.NormalizeCollapsesWhitespace | app.py:32-33 | any non-empty run of whitespace inside a name, tabs and line breaks included, normalises like one plain space |
| ColumnNames.WordsOfJoin | app.py:33 | splitting a single-space join of words gives back the same words |
| ColumnNames.NormalizeNormalForm | app.py:32-33 | a normalised name has no surrounding whitespace, only single plain spaces inside, and no upper-case letter |
| ColumnNames.NormalizeFixedPoints | app.py:32-33 | a name is left unchanged by normalisation exactly when it is already in that normal form |
| ColumnNames.NormalizeIdempotent | app.py:32-33 | normalising twice is the same as normalising once |
| ColumnNames.NormalizeAgreesIffSameWords | app.py:32-33 | two names normalise alike exactly when their stripped, lower-cased word sequences are equal |
| Lookup.IndexBy | app.py:38 | the dict comprehension built left to right, a later header overwriting an earlier one; `IndexBySpec` states what it holds |
| Lookup.FirstHit | app.py:39-43 | the loop's result: when there is one, it is a non-empty header stored under the key of one of the wanted names |
| Lookup.IndexBySpec | app.py:38 | the normalised-name dictionary holds every header's key, mapped to the last header with that key |
| Lookup.HitIffIndexed | app.py:38-41 | a wanted name matches exactly when its key maps to a non-empty header, and it then finds that header |
| Lookup.FirstHitSpec | app.py:39-43 | the search returns nothing exactly when no wanted name matches; otherwise it returns the header found by the first wanted name that matches |
| Lookup.FindsUnique | app.py:38-40 | a wanted name finds at most one header |
| Columns.Resolve | app.py:36-43 | what `resolve_column` returns; never the empty header |
| Columns.ResolveSpec | app.py:36-43 | `resolve_column` returns None exactly when neither the target nor any alias matches a non-empty header; otherwise it returns the header of the first name that matches, all earlier names missing |
| Columns.ResolvedIsHeader | app.py:36-43 | a resolved column is a non-empty header of the table |
| Columns.ResolveColumn | app.py:36-43 | the loop over target then aliases returns what the ordered search specifies |
| Columns.RenewalColumn | app.py:46-58 | the renewal column found is always one of the table's headers |
| Columns.RenewalColumnSpec | app.py:46-58 | a name match, tried in the fixed alias order, always wins; without one the result is column 12 when there are 13 or more columns, else none; none exactly when there is no match and fewer than 13 columns |
| Columns.RenamedTo | app.py:98-102 | when the target does not resolve nothing changes; otherwise every header equal to the resolved one becomes the target and every other header stays, so the width is kept and the renamed list contains the canonical name |
| Lookup.Relabel | app.py:101-102 | `rename(columns={from: to})`: each header equal to `from` becomes `to`, every other header is kept in place |
| Columns.RenamedPreservesHits | app.py:98-104 | renaming the resolved header to a non-empty target changes no wanted name's match |
| Columns.PartnerRenamePreservesRenewal | app.py:98-106 | the renewal column is found after the partner rename exactly when it is found before it |
| Columns.MissingColumns | app.py:368-374 | the partner name is reported missing exactly when it does not resolve, the renewal name exactly when no renewal column is found, and at most two names are reported |
| Columns.MissingColumnsNames | app.py:368-374 | every reported name is one of the two canonical names, and when both are reported the partner name comes first |
| Columns.MissingColumnsGuardNormalize | app.py:368-382 | the dashboard's check passes exactly when `normalize_partners` finds both the partner column and, after the rename, the renewal column |
| Text.CleanCost | app.py:121-127 | the cleaned cost text holds only digits, `.` and `-`, keeps every occurrence of them, and keeps their order |
| Text.CleanCostIdempotent | app.py:122-126 | cleaning a clean text changes nothing |
| Text.LexLeTotal | app.py:133 | any two partner names are ordered one way or the other |
| Text.LexLeTransitive | app.py:133 | the name order is transitive |
| Text.LexLeAntisymmetric | app.py:133 | names ordered both ways are equal |
| Seqs.Filter | app.py:182 | row selection by a mask keeps only rows the mask accepts, keeps all of them, and never grows the table |
| Seqs.FilterAppend | app.py:182 | selection commutes with concatenation, so the selected rows keep their input order |
| Seqs.FilterMultiplicity | app.py:182 | a selected row occurs as often as in the input, an unselected one never |
| Seqs.FilterComplement | app.py:131 | the rows a mask keeps and the rows it drops together make up the table |
| Partners.Occurrences | app.py:109 | a label has zero occurrences exactly when it is not a header |
| Partners.FirstAmbiguous | app.py:109-133 | no error exactly when every label read by name occurs at most once; otherwise the reported label is one of them, occurs more than once, and every label read before it occurs at most once |
| Partners.LayoutOf | app.py:109-123 | the columns read by name are located at headers carrying those names; CPL and cost are present exactly when their headers are |
| Partners.WorkingDate | app.py:112 | `fillna`: the ISO parse when it succeeded, else the lenient parse; missing exactly when both failed |
| Partners.WorkingDateRule | app.py:108-112 | every row's working date follows that rule applied to its two parses |
| Partners.CohortOf | app.py:115-117 | Facebook Group cohort exactly when the numeric CPL is 15 or 18 |
| Partners.CohortRule | app.py:113-119 | a row is in the Facebook Group cohort exactly when a CPL column exists and its CPL parses to 15 or 18; with no CPL column every row is in the other cohort, and so is a blank CPL cell when the numeric parse of a blank cell is missing; the label is one of the two |
| Partners.NameRule | app.py:131 | a row's partner name is missing exactly when its partner cell is missing, and otherwise is the cell's text |
| Partners.CostRule | app.py:121-129 | with no cost column every cost is missing; otherwise the cost is the numeric parse of the cell's text cleaned by `CleanCost`, which keeps exactly its digits, points and minus signs, in order |
| Partners.Enrich | app.py:108-129 | one enriched row per input row, carrying the row's own cells; `NameRule`, `WorkingDateRule`, `CohortRule` and `CostRule` state how each derived column follows from them |
| Partners.DaysToRenewal | app.py:132 | `.dt.days` floors: the result is the number of whole days, rounded down, from the as-of date to the renewal date's midnight |
| Partners.DaysToRenewalFromMidnight | app.py:132 | from an as-of date at midnight, the days to renewal are the difference of the day numbers, past dates negative |
| Partners.Retained | app.py:131-132 | as many rows are retained as are complete |
| Partners.RetainedRows | app.py:131-132 | a row is retained exactly when it has a partner name and a working date, with its days to renewal computed from the as-of date |
| Partners.RetainedMultiplicity | app.py:131-132 | no complete row is dropped: each complete row is retained exactly as often as it occurs in the enriched table |
| Partners.RetainedAndDropped | app.py:131 | the retained rows and the dropped rows together make up the enriched table, each row once |
| Partners.KeyLeTransitive | app.py:133 | the (working date, name) order is transitive |
| Partners.KeyLeAntisymmetric | app.py:133 | rows that sort before each other have the same working date and the same name |
| Partners.KeyLeTotal | app.py:133 | the (working date, name) order is total |
| Partners.Insert | app.py:133-135 | inserting into a sorted list gives a sorted list with that row added |
| Partners.SortPartners | app.py:133-135 | the sort returns the same rows, ordered by working date and then by name |
| Partners.NormalizePartners | app.py:96-136 | it fails with the partner error exactly when the partner header does not resolve, and with the renewal error exactly when the renewal column is not found after the rename; otherwise it fails on the first label read twice, or returns the renamed headers and exactly the retained rows, sorted |
| Buckets.RenewalBucket | app.py:181-182 | a row is in the bucket exactly when it is in the table and its days lie in [lo, hi], with its multiplicity and order kept |
| Buckets.Overdue | app.py:385 | the overdue rows are exactly those with negative days |
| Buckets.Beyond90 | app.py:389 | the 90+ rows are exactly those with more than 90 days |
| Buckets.BucketsPartition | app.py:385-396 | together the five buckets hold every row as often as the table does, and their sizes add up to its size |
| Buckets.ExactlyOneBucket | app.py:385-389 | each row of the table is in exactly one of the five buckets |
| Buckets.Revenue | app.py:398-418 | `fillna(0).sum()` of the numeric cost column; `RevenueAppend` and `RevenuePartition` state its properties |
| Buckets.RevenueAppend | app.py:398-418 | the revenue of a table split in two is the sum of the two parts' revenues |
| Buckets.RevenueFilterCons | app.py:401 | a bucket's revenue gains a row's cost, a missing cost counting as 0, exactly when the row is in the bucket |
| Buckets.RevenuePartition | app.py:398-418 | the five bucket revenues add up to the revenue of all rows |
| Buckets.CohortSlice | app.py:237-243 | a cohort's table holds exactly that cohort's rows, each as often as in the bucket and in the bucket's order |
| Buckets.CohortCountIsSliceSize | app.py:223-246 | a cohort's count equals the size of that cohort's table, zero for an empty cohort |
| Buckets.CohortCountsCover | app.py:224-230 | every row is counted in exactly one of the two cohorts, so the two counts add up to the table's size |
| Buckets.CohortCounts | app.py:224-230 | the pair lists Facebook Group first, then All Other Partners; each entry is its cohort table's size, and the two add up to the bucket's size |
| Buckets.CohortCountFilterCons | app.py:425-442 | a bucket's cohort count gains a row exactly when the row is in the bucket and in the cohort |
| Buckets.CohortCountsPartition | app.py:420-448 | summed over the five buckets, each cohort's count is its count over all rows |
| Buckets.Totals | app.py:398-448 | one bucket as the dashboard reports it: its rows, and two counts that are the sizes of its two cohort tables and add up to its size |
| Buckets.Summarize | app.py:385-448 | the five buckets, their counts and revenues; within each cohort the Total column equals that cohort's number of rows; the bucket sizes sum to the number of partners; the revenues sum to the total revenue |

## Left out

- Reading the data (`read_partner_sheet`, `read_partner_sheet_live`): the Excel and Google Sheets I/O, credentials, caching, and the dropping of all-empty rows and columns. The model starts from the header list and the rows.
- `require_login`, `display_partner_table`, `format_currency` and the rest of `main`'s Streamlit layout: user interface only. The as-of date is a parameter (`asOf`), not the clock.
- `apply_filters`: its selections come from sidebar widgets, and its name filter is a regular-expression search. `Summarize` takes the rows left after filtering as its input.
- Partners.Parsers: `pd.to_datetime` and `pd.to_numeric` are parameters, not definitions. Date-format inference and time zones are not modelled. Nothing constrains what the parsers return for a blank cell. So the model proves that a CPL with no numeric value gives All Other Partners (`CohortOf`, and `CohortRule` when the numeric parse of a blank cell is missing), not that pandas parses a blank cell as missing.
- ColumnNames.Lower: lower-cases only the Basic Latin and Latin-1 letters. Python's full Unicode case map, including mappings to several characters, is not modelled.
- The derived columns (`Renewal Date (Working)`, `CPL_numeric`, `Cohort`, `Monthly subscription cost numeric`, `Days to Renewal`) are record fields. An input header that already carries one of those labels, and is overwritten by the assignment, is not modelled.
- Excel cells that are not text, such as numbers or dates in a header or a name cell, are not modelled. Every value is its text.
- Partners.SortPartners: proved sorted and a permutation. That equal keys keep their input order is true of the definition but not stated.
- Buckets.Revenue: sums exact reals, not floating-point numbers. `format_currency`'s rounding is not modelled.
