# US bikeshare statistics explorer, modelled in Dafny

This project models the data pipeline of the bikeshare explorer `project.py`.
The program asks for a city, a month and a weekday, each of which may be `All`.
It loads the trips of that city, filters them by the month and the day, and reports:

- the most frequent month, weekday and start hour;
- the most used start station, end station and (start, end) pair;
- the total trip duration and a so-called average;
- the user types and, where the city has those columns, the genders and birth years.

The pandas operations are written out as functions and loops over sequences of trip records:

- `read_csv` + `concat`, the derived columns and the boolean-mask filters;
- `value_counts`, `idxmax` and `groupby().size()`;
- the column widths and `rjust`/`ljust` padding of `display_count_values`;
- the `title()`/`strip()`/`lower()` normalisation of the prompt.

Modules, one per file:

- `Wrappers` (`wrappers.dfy`): `Option` and `Result`.
- `Text` (`text.dfy`): the Python string methods the program uses.
  - `lower`, `title`, `strip` (with Python's whitespace set), `replace`, `rjust`, `ljust`, `str` of an integer.
  - Letter case is ASCII.
- `Trips` (`trips.dfy`): the data model.
  - A trip has an already decomposed start and end time (month 1..12, weekday 0..6 with 0 = Monday, hour 0..23), its two stations and a duration in seconds.
  - It has optional user type, gender and birth year, where `None` is a missing cell.
  - A raw table carries flags saying whether the file has the `Gender` and `Birth Year` columns.
  - A loaded table also has each row's derived `Month`, `Day of Week` and `Start Hour`.
- `Loader` (`loader.dfy`): `load_data`, as a function `Load` and as a method `LoadData` that builds the rows and reassigns them filter by filter.
  - The files on disk are a map from file name to table.
  - A missing file is the error `MissingFile`.
- `Counting` (`counting.dfy`): `value_counts`, with missing cells dropped.
  - It has distinct values, counts sorted non-increasingly, and positive counts that add up to the non-missing cells.
  - It also has the most common value (`idxmax`) and `min`/`max`.
- `Reports` (`reports.dfy`): `time_stats`, `station_stats`, `trip_duration_stats`, `display_count_values` and `user_stats`.
  - A statistic of an empty column, where pandas raises, is `None` or an `EmptyColumn` error, which also carries the lines printed before the raise.
- `Prompt` (`prompt.dfy`): the acceptance rule of `prompt_allowed_value` and `maybe_exit`, as a function of the typed lines.
  - The loop that reads them is a method.
  - The caller's list, to which `All` is appended, is a class.
- `Scenarios` (`scenarios.dfy`): the pipeline end to end on a three-trip Chicago file.

## Model

| member | source | states |
|---|---|---|
| Text.NatToString | project.py:131 | `str(n)` has at least one character, all of them decimal digits, and no leading zero; it is one character exactly when `n < 10` |
| Text.NatToStringValue | project.py:131-137 | the digits of `str(n)` spell `n` again (`DigitsValue`), so the printed count is the count |
| Text.IntToString | project.py:142 | `str(i)` of a signed integer starts with `-` exactly when `i` is negative; the rest is at least one decimal digit with no leading zero, and the string reads back as `i` (`IntValue`) |
| Text.DigitsMonotone | project.py:131 | a larger count never has fewer digits, so the digits of the largest count are the widest |
| Text.RJustFacts | project.py:133-137 | `RJust`, Python's `rjust`, returns a string of length `max(len, width)` that ends with the original and is filled with the pad character before it |
| Text.LJustFacts | project.py:133-137 | `LJust`, Python's `ljust`, returns a string of length `max(len, width)` that starts with the original and is filled with the pad character after it |
| Text.TitleFromFacts | project.py:24 | `Title` (`title()`) keeps the length and every uncased character; it changes letters only in case and upper-cases exactly the letters that start a word |
| Text.StripLeftFacts | project.py:24 | `Strip` (`strip()`) first removes a prefix made only of whitespace and leaves no leading whitespace |
| Text.StripRightFacts | project.py:24 | `strip()` then removes a suffix made only of whitespace and leaves no trailing whitespace |
| Text.TitleThenLower | project.py:24-25 | `Lower` (`lower()`) after `Title` gives the same string as lower-casing the original |
| Text.StripLower | project.py:24-25 | two strings equal up to letter case are still equal up to case after stripping |
| Loader.FileName | project.py:74 | `replace(' ', '_').lower() + '.csv'` (`ReplaceChar`, then `Lower`): the name is four characters longer than the city and ends in `.csv`; position by position, a space of the city becomes `_` and any other character is lower-cased; the stem has no space and is its own lower case |
| Loader.CityFileNames | project.py:69-75 | Chicago, New York City and Washington map to `chicago.csv`, `new_york_city.csv` and `washington.csv` |
| Loader.ReadCsv | project.py:69-75 | reading a file succeeds exactly when the file exists, returns its table, and otherwise fails naming the file |
| Loader.ResolveSource | project.py:68-75 | a city other than `All` reads its own file. `All` reads the three city files: the row sequence is their concatenation (`Concat3`) in the order Chicago, New York City, Washington; the row count is the sum; a column is present if any file has it; a failure names the first missing file in that order |
| Loader.AllIsTheThreeCities | project.py:68-72 | when `All` loads, each city loads on its own, and the `All` rows are the three cities' rows one after another |
| Loader.ConcatWellFormed | project.py:72 | after the concatenation, the rows that came from a file without `Gender` (`Birth Year`) have that cell missing, whatever the other files hold; a column none of the files has is missing in every row |
| Loader.LoadWellFormed | project.py:68-89 | when every file has missing cells for its missing columns, a loaded table without `Gender` (`Birth Year`) has no row with a gender (birth year) |
| Loader.DerivedColumns | project.py:77-81 | `Derived` keeps one row per trip (`DeriveRow`); every row's `Month`, `Day of Week` and `Start Hour` are the month name, weekday name and hour of its start time, and the hour is in 0..23 |
| Loader.DerivedIgnoresEndTime | project.py:79-81 | changing a trip's end time changes none of its derived columns |
| Loader.FilterMembers | project.py:84-87 | `Filter` keeps a row exactly when the row is in the table and the mask `Keeps` it: its start month (day) or its end month (day) matches |
| Loader.FilterAppend | project.py:84 | filtering a concatenation filters each part and keeps their order |
| Loader.FilterKeepsAll | project.py:84 | a mask that is true on every row returns the table unchanged |
| Loader.FiltersCommute | project.py:83-87 | applying the month filter then the day filter gives the same rows as the other order |
| Loader.FilterRows | project.py:84 | the row-by-row filter returns exactly the masked rows, in their original order |
| Loader.Load | project.py:56-89 | loading succeeds exactly when the source resolves, and otherwise fails with the same error |
| Loader.LoadKeepsMatchingRows | project.py:83-87 | the loaded table keeps the source's columns; a derived row is kept by `ByMonthUnlessAll` and `ByDayUnlessAll` exactly when it passes every filter that is not `All`; when both are `All` the table is the whole derived source |
| Loader.LoadData | project.py:56-89 | the imperative `load_data` adds the derived columns, then reassigns the rows through each active filter, and returns exactly `Load` |
| Loader.KeptRowMayHaveOtherMonth | project.py:79-84 | a trip starting in January and ending in February passes the February filter while its `Month` column says January |
| Counting.Present | project.py:128 | the non-missing values of a column are exactly the values of its non-missing cells |
| Counting.PresentCounts | project.py:128 | dropping the missing cells leaves `len - count(NaN)` values, and each value occurs as often as its cell does in the column |
| Counting.Distinct | project.py:128 | the distinct values of a column have no duplicate and the same members as the column |
| Counting.TallyOf | project.py:128 | the tally lists the given values in order, each with its number of occurrences |
| Counting.ValueCounts | project.py:128 | `value_counts()` lists each value of the column once, with its positive number of occurrences, in non-increasing order of count; the counts add up to the column's length |
| Counting.SortFacts | project.py:128 | sorting by count keeps the tallies as a permutation and orders them non-increasingly |
| Counting.TallyTotal | project.py:128 | tallying a column against duplicate-free values that include all of its values gives counts adding up to the column length |
| Counting.MostCommon | project.py:93-96 | `idxmax()` of the counts exists exactly on a non-empty column; it is a value of the column whose count is at least every other value's count |
| Counting.FirstIsMode | project.py:96 | the first entry of `value_counts()` is a most frequent value |
| Counting.MinOf | project.py:175 | the minimum is one of the values and at most each of them |
| Counting.MaxOf | project.py:176 | the maximum is one of the values and at least each of them |
| Reports.TimeStats | project.py:99-107 | on a non-empty table, the reported month, weekday and start hour are each a most frequent value of their derived column; there is no report on an empty table |
| Reports.StationStats | project.py:113-121 | on a non-empty table, the reported start station, end station and (start, end) pair are each the most frequent of their kind; there is no report on an empty table |
| Reports.TotalDurationAppend | project.py:151 | `TotalDuration`, the duration sum of two row sequences put together is the sum of their sums |
| Reports.TripDurationStats | project.py:150-155 | the total in days is the duration sum divided by 86400, and the printed "average" is the sum divided by 60 |
| Reports.TripDurationStatsCorrected | project.py:154-155 | the true average in minutes exists exactly on a non-empty table and, times 60 and the row count, gives the duration sum |
| Reports.ReportedAverageIsCountTimesMean | project.py:154-155 | the printed average is the row count times the true average |
| Reports.AverageQuirkExample | project.py:151-155 | with durations 60, 120 and 180 seconds the program prints 6 minutes where the mean is 2, and a total of 360/86400 days |
| Reports.MaxLength | project.py:130 | `len(max(labels, key=len))` is at least every label's length and equal to one of them |
| Reports.MaxCount | project.py:131 | `max(count_types.tolist())`, the `MaxOf` of the counts, is at least every count and equal to one of them |
| Reports.LabelWidth | project.py:130 | the label column is at least three wider than every label, and exactly three wider than a longest one |
| Reports.CountWidth | project.py:131 | the count column is as wide as the digits of every count, and exactly as wide as one of them |
| Reports.CountTableText | project.py:127-139 | the count table is printed exactly when `value_counts()` is not empty; `max()` of an empty sequence raises |
| Reports.EmitDataLines | project.py:136-137 | the loop prints one padded line per entry, in the order of `value_counts()` |
| Reports.DisplayCountValues | project.py:127-139 | the imperative `display_count_values` prints exactly the count table |
| Reports.CountTableLayout | project.py:132-139 | the table has `entries + 4` lines: introduction, header, a separator of `wL` dashes, a bar, `wC` dashes and a bar, one line per entry of length `wL + wC + 2`, and an empty line |
| Reports.SeparatorShape | project.py:134 | the separator (`SeparatorLine`) is `wL` dashes, `|`, `wC` dashes and `|`, of length `wL + wC + 2` |
| Reports.HeaderLineLength | project.py:133 | the header (`HeaderLine`) has no closing bar; its length is `max(len(type_name), wL) + 1 + max(5, wC)`, each column widened to fit its word |
| Reports.DataLineFits | project.py:130-137 | every label and count fits its column, so each data line (`DataLine`) has length `wL + wC + 2` |
| Reports.PaddedLineLayout | project.py:137 | a data line is spaces then the label ending at column `wL`, a bar, the count's digits then spaces up to column `wL + 1 + wC`, and a bar |
| Reports.BarredLayout | project.py:137 | a line made of a left column, a bar, a right column and a bar has each column and each bar at its fixed offset |
| Reports.CountTableTotals | project.py:128-137 | the listed values are exactly the distinct non-missing values of the column, without repetition; each count is positive and is the number of cells holding that value; counts are non-increasing and add up to `len(column) - count(NaN)` |
| Reports.BirthYearStats | project.py:174-177 | the birth-year statistics exist exactly on a non-empty column. Then the earliest and most recent years are observed years that bound every observed year, the most common year is a most frequent one, and earliest ≤ most common ≤ most recent |
| Reports.BirthYearLines | project.py:178-180 | three lines, each its fixed `display_value` label followed by `str()` of the earliest, most recent and most common year, which reads back as that year |
| Reports.ColumnTable | project.py:127-130 | `display_count_values` on a column prints a table exactly when the column has a non-missing value |
| Reports.GenderSection | project.py:168-171 | without a `Gender` column the section is the exact message. With one, it is none (the raise) exactly when no cell is filled, and otherwise the count table of the gender column |
| Reports.BirthYearSection | project.py:173-182 | without a `Birth Year` column the section is the exact message. With one, it is none (the raise) exactly when no cell is filled, and otherwise the three lines of the birth-year statistics |
| Reports.UserStats | project.py:162-182 | the user report fails exactly when one of the user-type column, a present gender column and a present birth-year column has no value, and names the first such column. A failure carries what was printed before the raise: nothing, the user-type table, or that table followed by the gender section. A success holds the user-type table of the user-type column, the gender section and the birth-year section |
| Reports.UserStatsSections | project.py:168-182 | in a report that completes, the gender and birth-year parts are absent exactly when their columns are, with the program's messages; otherwise they are the gender table and the birth-year lines |
| Reports.NoGenderColumnIsReported | project.py:168-182 | a table with some user type but neither optional column reports both absence messages instead of raising |
| Prompt.ReadAllowedValue | project.py:20-31 | the `while not value` loop ends with the outcome `Decide` gives for the typed lines |
| Prompt.ChoiceList.constructor | project.py:46-50 | the caller's list holds the values it was built with |
| Prompt.PromptAllowedValue | project.py:18-31 | the caller's list grows by exactly `All` at its end, and the outcome is decided against the grown list |
| Prompt.DecideAtDecidingLine | project.py:22-29 | prompting stops at the first line that is not rejected: it exits there if that line says `exit`, and otherwise returns it |
| Prompt.ChosenIffFirstAccepted | project.py:22-31 | `Decide` returns a value exactly when some typed line normalises to it (`Normalize`, `title()` then `strip()`), `IsExit` does not hold of it, `Accepts` holds (non-empty and allowed), and every earlier line was rejected |
| Prompt.ExitedIffFirstExit | project.py:6-10 | `Decide` exits exactly when `IsExit` holds of some normalised line, `exit` in any case, and every earlier line was rejected |
| Prompt.ExhaustedIffAllRejected | project.py:22-29 | input runs out exactly when every typed line was rejected |
| Prompt.ExitIgnoresCaseAndSpace | project.py:8 | a typed line means `exit` exactly when, stripped and lower-cased, it is `exit`, whatever its letter case |
| Prompt.EmptyIsNeverChosen | project.py:20-22 | the empty string is never returned, even if it is in the allowed list |
| Prompt.AllIsAccepted | project.py:19 | after the append, `All` is always an accepted answer |
| Scenarios.ChicagoLoad | project.py:74-89 | loading Chicago reads `chicago.csv` and applies the filters that are not `All` to its derived rows |
| Scenarios.JanuaryScenario | project.py:191-193 | on a Chicago file of two January trips and one February trip, the January filter keeps two rows and January is the most frequent month |
| Scenarios.UnfilteredScenario | project.py:191-196 | on the same file with no filter, in this order: three rows are kept; January is the most frequent month; the missing gender column is reported by its message; the printed average of 60, 120 and 180 seconds is 6 minutes where the corrected one is 2 |

## Left out

- Reading CSV files (`pd.read_csv`), column parsing and `pd.to_datetime`. The files are a map from file name to an already parsed table, and timestamps arrive split into a month, a weekday and an hour. Month and weekday names come from lookup tables.
- Console I/O. `input()` is a finite sequence of typed lines; running out of lines (where `input()` raises `EOFError`) is its own outcome. The printed prompts and messages are not modelled, except the two absence messages of `user_stats` and the lines of the count and birth-year tables. `exit()` is the `Exited` outcome.
- `get_filters` (project.py:33-53) and the restart loop of `main` (project.py:188-200) are console glue. `get_filters` passes a fresh list literal to each prompt, so the append on line 19 can only be seen through the caller's reference. This is why `PromptAllowedValue` takes the list as an object.
- `time.time()` and the "This took … seconds" lines read the wall clock.
- The sentences printed by `time_stats`, `station_stats` and `trip_duration_stats`, and float formatting of `total/86400` and `total/60`. The durations are integers and the two quotients are exact `real`s.
- Reports.TimeStats, Reports.StationStats and Counting.MostCommon say only that the reported value is a most frequent one. The model returns the first entry of its own `value_counts`. pandas decides ties by its own sort, and `groupby().size()` orders its keys before `idxmax`, so which of several equally frequent values the program prints is library behaviour. It is not the first-encountered value in every case.
- Counting.ValueCounts: the order among equal counts is the model's stable insertion order, not pandas'.
- `title()`, `lower()` and the case test use ASCII letters only; Unicode case mapping is not modelled. `strip()` uses Python's full whitespace set.
- Station names are plain strings, so a station is never missing; the user type, like gender, may be missing. The duration is an unbounded integer, so a missing or fractional duration is not modelled.
- The opening "Calculating User Stats..." line of `user_stats` is not part of the lines a failure carries; only the tables and messages are.
- `int(earliest)` on a birth year stored as a float is the identity here, because birth years are integers.

## Findings

| source | as written | input that shows it | evidently intended | confidence | as-written member | corrected member |
|---|---|---|---|---|---|---|
| project.py:154-155 | prints `total_time/60` as "the average duration", and computes `average_duration` but never uses it | trip durations 60, 120 and 180 seconds: prints 6 minutes | the mean duration in minutes, `average_duration/60`, here 2 minutes | not executed | Reports.AverageQuirkExample | Reports.TripDurationStatsCorrected |
