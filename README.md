# ED pain audit pipeline — a Dafny model

This project models `data_utils.py`, the core of an emergency-department pain audit tool.
The tool turns one monthly spreadsheet export of attendances into an analysis table, in these steps:

- header cleaning, removal of the patients' names, and a postcode join key;
- a left join with a deprivation (IMD) reference table, giving a quintile label per patient;
- parsing of the five event timestamps, and the minutes between the events;
- numeric pain scores and their change, and age bands;
- a best-practice verdict per patient, plus the counts behind a Sankey "funnel" chart;
- a separate helper that chooses and reports a rank test between groups.

The model has two layers.

- **Value layer.** Each stage is a total function on a table value (`Frames.Frame`: column names plus rows that map names to cells). Its contract states what the stage computes, when it raises, and what it leaves alone. `Pipeline` composes the stages the way `process_monthly_data` does, with any raised error turning into `None`.
- **Imperative layer.** `Audit` has a `DataFrame` class whose fields are the columns and rows. Its stage methods assign columns in place, in the order the source does. Each method is proved to leave the object in exactly the state the value-layer function computes. `Audit.ProcessMonthlyData` is proved equal to `Pipeline.ProcessMonthlyData`.

Module map, following the source:

| module | source |
|---|---|
| `Text` | the string operations the code relies on: `str.strip`, `str.upper`, `replace(' ', '')`, integer rendering |
| `Timestamps` | `pd.to_datetime(format='%d-%b-%y %H:%M', errors='coerce')`, and minutes since an epoch |
| `Frames` | the table, `df[name] = …`, `drop(errors='ignore')`, `len(df[mask])` |
| `Ingestion` | `load_and_clean_pain_data` |
| `Deprivation` | `load_imd_data` (the key step), `map_quintile`, `create_join_keys`, `merge_with_imd_data` |
| `Derivations` | `convert_date_columns`, `Report_Month`, `calculate_time_intervals`, `calculate_pain_scores`, `create_age_groups` |
| `Compliance` | `calculate_best_practice`: the verdict and the funnel |
| `Statistics` | `calculate_stats` |
| `Pipeline` | `process_monthly_data` (the second definition, which is the one in effect) |
| `Audit` | the same stages as in-place updates of one DataFrame object |

Where the repository's own design description and the code disagree, the model follows the code:

- An age of exactly 150 gets no band. `pd.cut` with `right=False` excludes the last edge. The description puts 150 in `95+`.
- A table without a `Postcode` column makes the run fail, at `create_join_keys`. The description wants it to degrade to `Unknown`.
- `IMD_Decile` stays in the output after a join. Only `Postcode`, `Join_Key` and `Postcode_Gov` are dropped. The description says the decile is removed.
- Duplicate postcodes in the reference table multiply the patient's row. The description asks for a first-match policy.
- A table with zero rows is not an error.
- If an event column is missing, `calculate_time_intervals` returns the table unchanged. The verdict then raises a KeyError on `Time_to_A1_Mins`, so the whole run returns `None`.

## Model

| member | source | states |
|---|---|---|
| Text.StripSpec | data_utils.py:38 | `str.strip()` removes exactly a leading and a trailing whitespace run; the result neither starts nor ends with whitespace |
| Text.NormaliseIdempotent | data_utils.py:44 | upper-casing and removing spaces a second time changes nothing |
| Text.NormaliseIgnoresSpace | data_utils.py:44 | a space between two parts does not survive upper-casing and removing spaces |
| Text.StripIdempotent | data_utils.py:38 | stripping a stripped name changes nothing |
| Text.RemoveSpacesSpec | data_utils.py:20 | `replace(' ', '')` leaves no space, keeps only characters of the input, and is the identity on text without spaces |
| Text.NatToStringValue | data_utils.py:172-184 | the count rendered in a funnel label reads back as the same number |
| Text.PadValue | data_utils.py:237 | a zero-padded field has the requested width, only digits, and the padded number's value |
| Timestamps.Parse | data_utils.py:88 | a parsed cell is a real calendar date and time, with a year in 1969..2068 |
| Timestamps.ParseFormat | data_utils.py:88 | every date-time the `%d-%b-%y %H:%M` layout can express is read back exactly |
| Timestamps.ParseSample | data_utils.py:88 | `05-Jan-24 14:32` reads as 2024-01-05 14:32 |
| Timestamps.ParseRejects | data_utils.py:88 | two-digit years 68 and 69 map to 2068 and 1969; 29-Feb-23 and a cell without a time become NaT |
| Timestamps.YearFieldOf | data_utils.py:88 | `%y` maps the last two digits of years 1969..2068 back to the year |
| Timestamps.MonthFieldOfAbbreviation | data_utils.py:88 | `%b` reads each English month abbreviation as its month number |
| Timestamps.SuccMinutes | data_utils.py:104-109 | the next minute is a valid date-time exactly one minute later on the epoch scale, across month ends, 29 February and year ends |
| Timestamps.NextDayNumber | data_utils.py:104-109 | consecutive calendar days have consecutive day numbers |
| Timestamps.ToMinutesMonotone | data_utils.py:104-109 | an earlier date-time has a smaller minute count |
| Frames.Assign | data_utils.py:44 | `df[name] = vals` puts vals in column name, keeps every other cell and the row count, and appends the name only if it is new |
| Frames.Drop | data_utils.py:52 | `drop(columns=…, errors='ignore')` removes exactly those names, in order, and keeps all other cells |
| Frames.CountComplement | data_utils.py:158-159 | a mask and its complement together count every row |
| Frames.CountSplit | data_utils.py:167-168 | a mask that is the disjoint union of two masks counts as many rows as the two together |
| Frames.CountMonotone | data_utils.py:153-164 | a mask that implies another selects no more rows |
| Ingestion.CleanHeader | data_utils.py:37-39 | each kept column is the stripped header name with its cells, in the original order |
| Ingestion.KeptMember | data_utils.py:39 | a column is kept exactly when its stripped name is not Surname or Forename |
| Ingestion.CleanHeaderDropsIdentifiers | data_utils.py:39 | Surname and Forename are absent after cleaning |
| Ingestion.CleanHeaderKeepsOthers | data_utils.py:38-39 | every other column survives, stripped, at a position that keeps the original order, with all its cells |
| Ingestion.CleanNamesStripped | data_utils.py:38 | every output name equals its own strip |
| Ingestion.ToFrame | data_utils.py:37-39 | the table is built exactly when the cleaned names are distinct, and each cell is the sheet cell under its name |
| Ingestion.LoadAndCleanPainData | data_utils.py:35-40 | the loaded table is well formed, has the cleaned header's columns, and has no name columns |
| Deprivation.LoadImdData | data_utils.py:12-24 | a failed read gives the empty table; otherwise one entry per reference row, with the postcode, the decile and the normalised key |
| Deprivation.PostcodeKeyIdempotent | data_utils.py:20 | normalising a normalised key changes nothing |
| Deprivation.PostcodeKeyIgnoresSpace | data_utils.py:44 | postcodes that differ only by a space get the same key |
| Deprivation.PostcodeKeyIgnoresCase | data_utils.py:44 | postcodes that differ only in letter case get the same key |
| Deprivation.NullPostcodeKey | data_utils.py:44 | a missing postcode gets the key `NAN` |
| Deprivation.MapQuintile | data_utils.py:26-33 | `Unknown` exactly for a missing decile; otherwise one of the five quintile labels |
| Deprivation.QuintilePairsDeciles | data_utils.py:26-33 | deciles 2k-1 and 2k map to quintile k |
| Deprivation.QuintileMonotone | data_utils.py:26-33 | the quintile never falls as the decile grows |
| Deprivation.QuintileExamples | data_utils.py:26-33 | decile 1 → `1 - Most Deprived`, 5 → `3`, 10 → `5 - Least Deprived`, missing → `Unknown` |
| Deprivation.CreateJoinKeys | data_utils.py:42-45 | KeyError exactly when Postcode is absent; otherwise Join_Key is each row's normalised postcode and nothing else changes |
| Deprivation.JoinRow | data_utils.py:50 | a patient row yields one output row per reference row sharing its key, or one row when none does; output row k carries the k-th matching decile (missing when none matched) and is otherwise the patient row |
| Deprivation.LeftJoin | data_utils.py:50 | the left join never yields fewer rows than patients, and every output row comes from a patient row |
| Deprivation.LeftJoinConcat | data_utils.py:50 | the left join is the blocks of the patient rows, each the patient's own join, laid end to end in patient order |
| Deprivation.JoinedRow | data_utils.py:50 | row k of patient i's block carries the k-th matching decile (missing when none matched) and the patient's other cells |
| Deprivation.JoinedBeforeStep | data_utils.py:50 | the output block of patient i+1 starts where the block of patient i ends |
| Deprivation.LeftJoinLength | data_utils.py:50 | the join holds exactly the blocks of all patients, nothing more |
| Deprivation.LeftJoinBlock | data_utils.py:50 | patient i, in patient order, becomes the block of output rows starting after the blocks of patients 0..i-1, and row k of that block is row k of its own join |
| Deprivation.Enrich | data_utils.py:50-52 | after join, quintile and drop, the columns are the patient columns less the scaffolding plus the two IMD columns, and each quintile matches its row's decile |
| Deprivation.MergeWithImdData | data_utils.py:47-55 | no or empty reference: Unknown everywhere and nothing else changes; with a reference: success exactly when Join_Key is present and IMD_Decile is not, and then the scaffolding is replaced by the IMD columns |
| Deprivation.EnrichRow | data_utils.py:50-52 | after join, quintile and drop, row k of patient i's block has the k-th matching decile, its quintile, and the patient's cells outside the scaffolding |
| Deprivation.QuintileThenDrop | data_utils.py:51-52 | the quintile column then the drop keep every row's cells outside the scaffolding and give each row the quintile of its decile |
| Deprivation.MergeRows | data_utils.py:47-52 | with any non-empty reference table, patient i becomes a block of rows in patient order, one per reference row sharing its key (in reference order) or one when none does; row k carries the k-th matching decile, its quintile, and the patient's cells outside the scaffolding; the table is exactly these blocks |
| Deprivation.MergeBlocks | data_utils.py:50 | the blocks of patient i and i+1 are adjacent, and patient i's block has one row per match, or one row |
| Deprivation.MergeColumns | data_utils.py:47-55 | the merge keeps every non-scaffolding column and adds only the two IMD columns |
| Deprivation.MergedWellFormed | data_utils.py:50 | the joined table has distinct column names and every row holds exactly those columns |
| Deprivation.MatchesUnique | data_utils.py:50 | with unique reference keys a key matches at most one entry, namely the entry that carries it |
| Deprivation.LeftJoinUnique | data_utils.py:50 | with unique reference keys the join keeps the row count and sets each row's decile by lookup |
| Deprivation.MergeUniqueKeys | data_utils.py:47-55 | with unique keys: same row count, decile and quintile from the lookup, every other non-scaffolding cell unchanged |
| Deprivation.UnmatchedIsUnknown | data_utils.py:50-51 | for any reference table, a patient whose key matches no reference entry becomes exactly one output row, with quintile `Unknown` |
| Deprivation.DuplicateKeysMultiplyRows | data_utils.py:50 | a reference key that occurs twice doubles the matching patient row |
| Deprivation.PostcodeJoinRoundTrip | data_utils.py:44-52 | for any reference table (repeated keys allowed), a patient whose postcode normalises like a reference postcode has, within its own block, an output row with that reference row's quintile (`Unknown` only when that row's decile is missing) and the patient's own cells |
| Derivations.ParseCell | data_utils.py:88 | a converted cell is a date-time or NaT; text is parsed, an existing date-time is kept, a number or a missing cell becomes NaT |
| Derivations.ParseCellIdempotent | data_utils.py:86-88 | converting a converted cell changes nothing |
| Derivations.ParseCellOfFormat | data_utils.py:88 | a cell written in the export's layout converts to the date-time it shows |
| Derivations.ConvertDateColumns | data_utils.py:84-89 | the named columns that are present are converted; the columns and all other cells are unchanged |
| Derivations.ConvertedColumnsAreDates | data_utils.py:84-89 | after conversion every present event column holds only date-times and NaT |
| Derivations.AddReportMonth | data_utils.py:237 | KeyError exactly without Arrival DTTM; otherwise Report_Month is each arrival's `YYYY-MM` (NaT for a missing one) and nothing else changes |
| Derivations.SameReportMonth | data_utils.py:237 | two arrivals share a report month exactly when they fall in the same calendar month |
| Derivations.Minutes | data_utils.py:104-109 | an interval is missing exactly when either stamp is missing |
| Derivations.AddIntervals | data_utils.py:104-109 | each added interval is the minute difference of its two stamps; no other cell changes |
| Derivations.IntervalsIndependent | data_utils.py:104-109 | no interval overwrites a stamp an interval reads, no two share a name, and all read only the five event columns |
| Derivations.CalculateTimeIntervals | data_utils.py:91-110 | with an event column missing the table comes back unchanged; otherwise the six differences are added and nothing else changes |
| Derivations.MinutesSign | data_utils.py:104-109 | a difference is negative exactly when the later event comes first, and zero exactly for equal stamps |
| Derivations.OppositeIntervals | data_utils.py:108-109 | PS2_to_A1_Mins is the negation of A1_to_PS2_Mins, and missing exactly when it is missing |
| Derivations.IntervalExample | data_utils.py:104 | 10:00 to 10:12 on the same day is 12 minutes |
| Derivations.MinutesOfSuccessor | data_utils.py:104-109 | one minute later is a difference of 1 |
| Derivations.ScoreOf | data_utils.py:114-116 | a score exists exactly for the four labels; it lies in 0..3 and is the label's position |
| Derivations.Difference | data_utils.py:117 | the improvement is present exactly when both scores are, and is second minus first |
| Derivations.CalculatePainScores | data_utils.py:112-118 | KeyError exactly when either label column is absent; otherwise the two scores and their difference are added and nothing else changes |
| Derivations.ImprovementRange | data_utils.py:114-117 | the improvement is missing exactly when a label is unknown, lies in -3..3, and is negative exactly when the second score is lower |
| Derivations.ImprovementExample | data_utils.py:114-117 | Sev Pain then Mild Pain gives -2; an unmapped label gives NaN |
| Derivations.BinIndex | data_utils.py:125 | a found bin holds the value, lower edge included and upper edge excluded; on increasing edges none is found exactly outside the range |
| Derivations.BinIndexOf | data_utils.py:125 | a value inside bin k is placed in bin k |
| Derivations.ToNumeric | data_utils.py:122 | coercion gives a number or NaN; numbers are kept; text becomes a number exactly when it is an integer |
| Derivations.ToNumericOfNumber | data_utils.py:122 | a rendered integer coerces back to itself |
| Derivations.AgeBand | data_utils.py:123-125 | an age gets a band exactly when it lies in [0, 150), and that band is the label of the bin holding it |
| Derivations.AgeBandExamples | data_utils.py:123-125 | 15 → `15-25`, 95 → `95+`, 149 → `95+` |
| Derivations.NoAgeBandExamples | data_utils.py:123-125 | 150, -1 and a non-numeric age get no band |
| Derivations.CreateAgeGroups | data_utils.py:120-126 | KeyError exactly without Age; otherwise Age is coerced, Age_Group is its band, and nothing else changes |
| Compliance.BestPracticeRule | data_utils.py:133-149 | Yes exactly for moderate or severe pain with first score and analgesia within 15 minutes and reassessment strictly after analgesia, within 30 (moderate) or 15 (severe) minutes |
| Compliance.VerdictReadsFourColumns | data_utils.py:133-149 | the verdict depends only on the first pain score and the three intervals it reads |
| Compliance.VerdictExamples | data_utils.py:133-149 | edge cases: 15 and 30 minutes pass, 16 and 31 fail, a reassessment at 0 minutes fails, a missing interval fails, mild pain fails |
| Compliance.CalculateBestPractice | data_utils.py:128-213 | KeyError exactly when a verdict input is missing; otherwise Best_Practice is Yes exactly for the rows meeting the rule, and the returned funnel is that of the marked table |
| Compliance.FunnelOf | data_utils.py:170-213 | 13 labels and 12 links |
| Compliance.FunnelShape | data_utils.py:187-188 | every link goes from a lower to a higher node below 13, and each node but the root has exactly one incoming link |
| Compliance.FunnelLabelsShowFlows | data_utils.py:171-202 | each node's label shows the value of the link into it, and the root shows the patient count |
| Compliance.TallyNesting | data_utils.py:152-168 | the counts nest: best practice ≤ PS1&A1 ≤ PS1 per severity, severe plus moderate ≤ PS1 ≤ total, Yes plus No is the total, and every Yes is a severe or moderate best-practice patient |
| Compliance.FunnelConservation | data_utils.py:152-213 | links leaving a node add up to the link into it, every link is non-negative, the two severity links never exceed the PS1 link, and Yes plus No is the total |
| Compliance.FunnelLevelTwoExample | data_utils.py:153-155 | a mild-pain patient seen in time counts under PS1 <= 15 but under neither severity node |
| Statistics.Groups | data_utils.py:263 | the groups are the distinct present values of the column |
| Statistics.GroupCount | data_utils.py:263-266 | the number of groups is the number of distinct present values |
| Statistics.GroupRows | data_utils.py:264 | the listed positions increase and each names a row in group g with a present target |
| Statistics.GroupRowsMember | data_utils.py:264 | a row's position is listed exactly when the row is in group g and its target is present |
| Statistics.GroupData | data_utils.py:264 | a group's data hold one value per listed row, in row order: the target value of that row |
| Statistics.GroupDataValues | data_utils.py:264 | a group's data contain no missing value, and they contain exactly the present target values of the rows in that group |
| Statistics.Report | data_utils.py:277-280 | significant exactly when p < 0.05, with the matching message |
| Statistics.CalculateStats | data_utils.py:257-282 | missing columns give the error result; fewer than two groups gives `Insufficient groups`; two groups use Mann-Whitney U, more use Kruskal-Wallis; a failing test gives the error result |
| Statistics.TestChoice | data_utils.py:266-275 | the test chosen depends only on the number of distinct present group values |
| Statistics.SingleGroupIsInsufficient | data_utils.py:263-267 | a column with one present value never reaches a test |
| Pipeline.Prepare | data_utils.py:221-232 | a prepared table is well formed |
| Pipeline.ProcessMonthlyData | data_utils.py:215-255 | no export gives None; a returned table carries no Surname or Forename; it is the bare table exactly when the export has no Arrival DTTM column; a returned funnel is the funnel of the returned table, with total and Yes plus No equal to its rows |
| Pipeline.DeriveFunnel | data_utils.py:151-213 | step 5's funnel is the funnel of its own table, and that table's Best_Practice column agrees with the verdict on every row |
| Pipeline.PrepareColumns | data_utils.py:221-232 | after preparation the columns are the cleaned header's, less the scaffolding, plus the join and IMD columns |
| Pipeline.DeriveColumns | data_utils.py:234-249 | step 5 keeps every column and adds only the derived ones |
| Pipeline.FailureCases | data_utils.py:215-255 | an unreadable export, duplicated column names, or no Postcode column give None |
| Pipeline.ArrivalDecidesShape | data_utils.py:235-251 | a successful run's output is the bare table exactly when the export has no Arrival DTTM column |
| Pipeline.MissingEventColumnFails | data_utils.py:215-255 | with an arrival column but another event column missing, the run gives None |
| Pipeline.DeriveNeedsEvents | data_utils.py:98-135 | step 5 fails on a table that lacks an event column and Time_to_A1_Mins |
| Pipeline.NamesNeverLeave | data_utils.py:215-251 | no successful run's table carries Surname or Forename |
| Pipeline.FunnelOfOutput | data_utils.py:205-213 | a successful run's funnel is the funnel of its table: total and Yes plus No equal its rows, and every link is non-negative |
| Audit.DataFrame.SetColumn | data_utils.py:44 | assigning a column in place leaves the object holding `Frames.Assign` of its old contents |
| Audit.DataFrame.DropColumns | data_utils.py:52 | dropping in place leaves the object holding `Frames.Drop` of its old contents |
| Audit.CreateJoinKeys | data_utils.py:42-45 | the in-place stage raises as the value stage does, and otherwise leaves its result in the object |
| Audit.MergeWithImdData | data_utils.py:47-55 | with a reference table a fresh object holds the merged table and the input object is untouched; otherwise the input object itself gets the Unknown column |
| Audit.ConvertDateColumns | data_utils.py:84-89 | the loop over the names leaves the object holding the converted table |
| Audit.AddReportMonth | data_utils.py:237 | the in-place Report_Month assignment matches the value stage |
| Audit.CalculateTimeIntervals | data_utils.py:91-110 | the six in-place assignments, or none when an event column is missing, give the value stage's table |
| Audit.CalculatePainScores | data_utils.py:112-118 | matches the value stage; when the second label column is missing, the first score column has already been written |
| Audit.CreateAgeGroups | data_utils.py:120-126 | matches the value stage, with Age overwritten in place |
| Audit.CalculateBestPractice | data_utils.py:128-213 | matches the value stage, with the table and the same funnel |
| Audit.ProcessMonthlyData | data_utils.py:215-255 | the in-place pipeline returns exactly what `Pipeline.ProcessMonthlyData` returns |

## Left out

- Reading files is not modelled. `pd.read_excel(header=4)` becomes an already-read `Ingestion.Sheet` (header and cells), passed as an `Option` whose `None` is a failed read. `pd.read_csv(usecols=…)` in `load_imd_data` becomes an optional sequence of (postcode, decile) records. The column rename with `inplace=True` is part of building those records.
- The `print` warnings (lines 23, 81, 100, 254) are left out. Only their effect on the result is modelled.
- Floating point is not modelled. Intervals are exact whole minutes. The layout has no seconds, so `total_seconds() / 60` is always a whole number there.
- scipy's `mannwhitneyu` and `kruskal` are function parameters returning an optional p-value. A NaN p-value is not modelled.
- Unicode subtleties are not modelled. Case folding and digit recognition are ASCII only. Whitespace follows Python's `str.isspace` set.
- Ingestion.ToFrame: it rejects any repeated column name after stripping. pandas rejects duplicates only where the pipeline later reads a duplicated column.
- Derivations.ToNumeric: only integer text converts. Decimal text such as `"42.5"` becomes NaN rather than a float.
- Date-time cells that Excel has already typed keep their value, and their seconds are not modelled.
- The first `process_monthly_data` (lines 57-82) is not modelled. It is replaced by the second definition at line 215.
- The `ps1_a1_15_mins` count (line 162) is not modelled. It is computed but never used.
- Compliance.CalculateBestPractice: a missing input gives a `MissingColumn` error naming some missing input. The contract does not also state that it is the first in evaluation order, although the body takes the first.
- Audit.MergeWithImdData: pandas may share memory between the merged table and its input. The model gives the merge a fresh object.
- The default `target_col='Time_to_A1_Mins'` of `calculate_stats` (line 257) is not modelled: `Statistics.CalculateStats` always takes the target column as an argument, and passing `"Time_to_A1_Mins"` gives the default's behaviour.
- app.py and equity_tab.py are not part of this model. They are Streamlit layout and charts.
