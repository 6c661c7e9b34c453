# finance-tool: a verified model of the categorisation core

finance-tool is a small Streamlit application for reviewing personal bank
transactions. It reads the CSV exports of a Belgian bank and stacks them into
one table, dropping duplicate lines. For each line it computes:

- an identity hash of the description, posting date ("Datum") and amount ("Bedrag");
- a "group" key from a normalised description;
- an "Actual Date", taken from a timestamp embedded in the description.

It then attaches the two user decisions, "Category" and "Split with Medha".
These come from the categorisation store `metadata.csv` when that file exists,
and otherwise default to "Other" and false. The review page walks the user
through the table:

- one row at a time, or all rows of the selected row's group at once;
- after each decision it saves the store and moves to the earliest row still
  marked "Other";
- a final step exports the table.

This project models that core in Dafny:

| module | file | models |
|---|---|---|
| `Config` | `config.dfy` | the closed constants of `config.py`, and the column projections of the save and the export |
| `Calendar` | `calendar.dfy` | timestamps, Gregorian validity, the `%d/%m/%Y` parse and format, `str(Timestamp)` |
| `Grouping` | `grouping.dfy` | `assign_group`: lower-case, strip hex runs, keep letters, then digest |
| `DateResolver` | `date_resolver.dfy` | the "Actual Date" column: first `DD-MM-YYYY OM HH.MM UUR` match, or the posting date |
| `Identity` | `identity.dfy` | `hash_f`, with MD5 and the float rendering of the amount as parameters |
| `Records` | `records.dfy` | the rows at each stage: raw line, dated row, keyed row, review-table row, store line |
| `Duplicates` | `dedup.dfy` | `DataFrame.drop_duplicates()` on a labelled table |
| `Loader` | `loader.dfy` | `load_data`, both as written and corrected |
| `Review` | `review.dfy` | the session state and the callbacks `update_dataframe`, `display_row`, `show_entry_on_click`, `apply_to_all`, `move_to_next_row`, `save_dataframe`, `apply_single_row` and `export` |

**Tables.** A pandas table is modelled as a sequence of `(label, row)` pairs
(`seq<Entry>`), not as a map from label to row:

- the order of the rows matters: `move_to_next_row` picks the first row of a
  sorted table, and `show_entry_on_click` selects by position (`iloc`);
- as written, `load_data` can give two rows the same label (see Findings), and
  a `.loc` write then reaches every row with that label.

Writes by label are modelled by `Review.SetDecision`, which changes every row
carrying one of the given labels. The session state is the class
`Review.Session`:

- its fields are the table, the selected row, the similar rows, the store and
  the export;
- its methods are the callbacks.

Each callback's `ensures` gives the whole new state in terms of specification
functions, and the lemmas beside those functions state what the program
promises.

**Deduplication compares whole rows** (`utils.py:30`, `:47`), not identity
hashes. Two lines with the same description, date and amount but a different
balance ("Saldo") therefore stay two rows with the same hash.
`Duplicates.Dedup` compares whole rows in the same way.

## Model

| member | source | states |
|---|---|---|
| Config.CategoryOptionsShape | config.py:6-7 | there are 17 pairwise-distinct categories; "Other" is the first, and the load default is among them |
| Config.RelevantColumnsShape | config.py:3-4 | there are 8 distinct input columns, including Datum, Omschrijving and Bedrag, the three the identity hash reads |
| Config.StoreColumnsExact | utils.py:230 | dropping the input columns, Actual Date and group from the save-time frame leaves exactly hash, Category and Split with Medha |
| Config.StoreKeepsDecisionsAndHash | config.py:3-5 | the added columns are disjoint from the input columns, so the store holds exactly the hash and the two decisions |
| Config.StoreColumnsAfterMergeExact | utils.py:229-230 | for a table loaded with a store, the store is written as Category, Split with Medha, then the hash, which the merge dropped and the save appends |
| Config.ExportColumnsExact | utils.py:241 | the export drops group and Actual Date and keeps, in order, the input columns, the hash and the two decisions |
| Calendar.DaysInMonth | utils.py:32 | a month has 28 to 31 days, and February has 29 exactly in leap years |
| Calendar.RankIsChronological | utils.py:215 | the sort key orders valid timestamps exactly as the calendar does (year, month, day, hour, minute) |
| Calendar.ParseOfFields | utils.py:32 | parsing "D/M/Y" with `%d/%m/%Y` succeeds exactly when the day, month and year fields are well formed and name a real date, giving that date at midnight |
| Calendar.ParsedPostingDateValid | utils.py:32 | every parsed Datum is a real calendar date at midnight |
| Calendar.PostingDateRoundTrip | utils.py:240 | a posting date written with `%d/%m/%Y` reads back to the same date with the import format |
| Calendar.ParsePostingDate | utils.py:32 | definition; meaning in Calendar.ParseOfFields and Calendar.ParsedPostingDateValid |
| Calendar.FormatPostingDate | utils.py:240 | definition; meaning in Calendar.PostingDateRoundTrip |
| Calendar.TimestampText | utils.py:21 | `str(Datum)` inside the hash input always has 19 characters; its meaning is in Calendar.TimestampTextInjective |
| Calendar.TimestampTextFields | utils.py:21 | year, month, day, hour and minute sit at fixed positions of `str(Datum)`, zero-padded |
| Calendar.TimestampTextInjective | utils.py:21 | two real timestamps with the same `str()` are equal, so the date part of the hash input determines the posting date |
| Calendar.ValidDate | utils.py:32 | definition of what `datetime` accepts: years 1 to 9999, months 1 to 12, days within the month; meaning in Calendar.DaysInMonth and Calendar.ParseOfFields |
| Calendar.DayField | utils.py:32 | strptime's `%d` alternatives ("3[01]", "[12]\d", "0[1-9]", "[1-9]", " [1-9]") matched as a whole field; the value is always 1 to 31; meaning in Calendar.ParseOfFields |
| Calendar.MonthField | utils.py:32 | strptime's `%m` alternatives ("1[0-2]", "0[1-9]", "[1-9]") matched as a whole field; the value is always 1 to 12; meaning in Calendar.ParseOfFields |
| Calendar.YearField | utils.py:32 | definition: strptime's `%Y` as exactly four digits; meaning in Calendar.ParseOfFields and Calendar.PostingDateRoundTrip |
| Grouping.Lower | utils.py:76 | no capital letter remains, each capital becomes the same letter in lower case, every other character stays where it was, and the length is kept |
| Grouping.LowerIdempotent | utils.py:76 | lower-casing lower-cased text changes nothing |
| Grouping.LettersOnly | utils.py:77 | the result holds only a-z and spaces, every letter stays at its position, no letter is introduced, and the length is kept |
| Grouping.StripHex | utils.py:76 | definition; meaning in Grouping.StripHexRun, Grouping.StripHexNoHexTriple and Grouping.StripHexKeeps |
| Grouping.GroupText | utils.py:76-77 | definition; meaning in Grouping.GroupTextShape and Grouping.GroupTextIdempotent |
| Grouping.GroupKey | utils.py:78 | definition; meaning in Grouping.HexTokenInvariance |
| Identity.HashInput | utils.py:21 | definition: the description, then `str(Datum)`, then the scaled amount; meaning in Review.SavedHashIsLoadedHash |
| Identity.HashKey | utils.py:19-21 | definition: the digest of that text, so it reads only Omschrijving, Datum and Bedrag; meaning in Review.SavedHashIsLoadedHash |
| Grouping.StripHexNoHexTriple | utils.py:76 | after the hex strip no three consecutive characters are from [a-f0-9] |
| Grouping.GroupTextShape | utils.py:76-77 | the normalised text holds only a-z and spaces, and never three consecutive letters from a-f |
| Grouping.StripHexKeeps | utils.py:76 | the hex strip leaves a text with no hex triple unchanged |
| Grouping.NormalisedIsFixed | utils.py:76-77 | lower-casing and the letter filter leave a text of letters and spaces unchanged |
| Grouping.GroupTextIdempotent | utils.py:76-77 | normalising an already normalised text returns it unchanged |
| Grouping.StripHexAppend | utils.py:76 | the hex strip works piecewise across a boundary with a non-hex character on its left |
| Grouping.StripHexRun | utils.py:76 | a maximal hex run of length at least 3 becomes one space |
| Grouping.StripHexShortRun | utils.py:76 | a maximal hex run of one or two characters is kept as it is |
| Grouping.GroupTextAroundToken | utils.py:76-77 | a description with a maximal hex token normalises to its two sides joined by a space |
| Grouping.HexTokenInvariance | utils.py:76-78 | descriptions differing only in a maximal hex token of length at least 3 get the same group text and group key |
| DateResolver.FirstMatchFrom | utils.py:60 | the result is the leftmost match at or after i, or None when there is none |
| DateResolver.ActualDate | utils.py:60-61 | definition; meaning in DateResolver.ActualDateOfFirstMatch and DateResolver.LaterMatchesIgnored |
| DateResolver.FirstMatch | utils.py:60 | definition: `str.extract` searches from position 0; meaning in DateResolver.FirstMatchIsLeftmost |
| DateResolver.StampOf | utils.py:61 | definition: a match read as `%d-%m-%Y %H.%M` (day at 0, month at 3, year at 6, hour at 14, minute at 17); meaning in DateResolver.ActualDateOfFirstMatch and DateResolver.ExampleEmbeddedTimestamp |
| DateResolver.FirstMatchIsLeftmost | utils.py:60 | `str.extract` finds the leftmost match |
| DateResolver.ActualDateOfFirstMatch | utils.py:60-61 | the actual date is the first match's timestamp when that is a real date and time, and the posting date otherwise |
| DateResolver.ActualDateWithoutMatch | utils.py:61 | without a match the actual date is the posting date |
| DateResolver.ActualDateValid | utils.py:61 | a valid posting date gives a valid actual date |
| DateResolver.LaterMatchesIgnored | utils.py:60 | once a text holds a match, whatever follows it cannot change the actual date |
| DateResolver.ExampleEmbeddedTimestamp | utils.py:60-61 | "15-03-2023 OM 14.30 UUR" resolves to 2023-03-15 14:30 |
| DateResolver.ExampleUnanchored | utils.py:60 | the match in "123-04-2023 OM 10.00 UUR" starts at "23-04-2023" |
| DateResolver.ExampleInvalidFirstMatch | utils.py:61 | an invalid first match (29 February 2023) falls back to the posting date, though a later match is valid |
| DateResolver.ExampleHour24 | utils.py:61 | hour 24 is not a time of day, so the posting date is used |
| Duplicates.Dedup | utils.py:30 | definition; meaning in Duplicates.DedupKeepsFirstOccurrences and Duplicates.DedupValues |
| Duplicates.DedupValues | utils.py:30 | deduplication keeps exactly the distinct rows, and no two kept rows are equal |
| Duplicates.DedupKeepsFirstOccurrences | utils.py:30 | a row is kept exactly when it is the first occurrence of its values |
| Duplicates.DedupCount | utils.py:30 | the kept row count is the number of distinct rows |
| Duplicates.DedupAbsorbs | utils.py:30 | appending rows that are all already present changes nothing |
| Duplicates.DedupDoubled | utils.py:30 | a table appended to itself deduplicates to the table deduplicated |
| Duplicates.DedupSubset | utils.py:30 | every kept row, with its label, is a row of the input |
| Duplicates.DedupKeepsOrder | utils.py:30 | labels that increase in the input still increase after dropping rows |
| Duplicates.DedupSameValues | utils.py:30 | deduplication ignores labels: tables with the same rows keep the same rows |
| Duplicates.DropDuplicates | utils.py:30 | the one-pass scan computes the deduplicated table |
| Loader.Numbered | utils.py:46 | a fresh range index: the labels increase and the rows are kept in order |
| Loader.Concat | utils.py:29 | definition as written: each file keeps its own labels; meaning in Loader.ConcatValues and Review.ConcatOfTwoLines |
| Loader.Stacked | utils.py:29 | corrected definition: the lines of all files, relabelled 0..n-1; meaning in Loader.LoadLabelsIncrease |
| Loader.MergeLeft | utils.py:46 | definition; meaning in Loader.MergeLeftMembers |
| Loader.Joined | utils.py:46-47 | definition; meaning in Loader.JoinedMembers |
| Loader.FillDecision | utils.py:50-52 | corrected definition: unmatched rows get "Other" and false; meaning in Loader.FillsOfJoinedRow |
| Loader.FillDecisionAsWritten | utils.py:50-52 | definition as written: unmatched rows get "nan" and true; meaning in Loader.FillsOfJoinedRow |
| Loader.Load | utils.py:24-61 | corrected definition of the load; meaning in Loader.LoadSucceeds, Loader.LoadWithoutStoreRows, Loader.LoadWithStoreRow and Loader.LoadLabelsIncrease |
| Loader.LoadAsWritten | utils.py:24-61 | definition as written; meaning in Loader.AsWrittenUnmatchedRows and Review.SharedLabelAsWritten |
| Loader.ConcatAppend | utils.py:29 | concatenating more files appends their lines |
| Loader.ConcatValues | utils.py:29 | the concatenation holds exactly the lines of the files |
| Loader.FirstUnparseableIndex | utils.py:32 | when some Datum does not parse, the result is the first such row |
| Loader.ParseDates | utils.py:32 | definition; meaning in Loader.FirstUnparseableIndex, Loader.ParsedRows and Loader.LoadSucceeds |
| Loader.KeyRow | utils.py:38-41 | definition: the row with its identity hash and group key; meaning in Loader.KeyedRowFromLine |
| Loader.Finish | utils.py:48-61 | definition: the keyed row with its decisions, hash column and actual date; meaning in Loader.LoadWithoutStoreDefaults and Loader.LoadWithStoreRow |
| Loader.WithDefaults | utils.py:55-61 | definition; meaning in Loader.LoadWithoutStoreDefaults |
| Loader.MergeFill | utils.py:48-52 | corrected definition; meaning in Loader.FillsOfJoinedRow and Loader.LoadWithStoreRow |
| Loader.MergeFillAsWritten | utils.py:48-52 | definition as written; meaning in Loader.FillsOfJoinedRow and Loader.AsWrittenUnmatchedRows |
| Loader.RawTable | utils.py:29-30 | corrected definition; meaning in Loader.RawTableValues |
| Loader.RawTableAsWritten | utils.py:29-30 | definition as written; meaning in Loader.KeyedAsWrittenSameRows |
| Loader.Keying | utils.py:32-41 | definition: parse the dates, then key every row; meaning in Loader.KeyingSameValues |
| Loader.KeyedTable | utils.py:24-41 | corrected definition of the load before decisions; meaning in Loader.KeyedTableSize, Loader.KeyedRowFromLine and Loader.LineHasKeyedRow |
| Loader.KeyedTableAsWritten | utils.py:24-41 | definition as written; meaning in Loader.KeyedAsWrittenSameRows |
| Loader.ParsedRows | utils.py:32 | each row keeps its label and its other columns, and gets a real date at midnight that is what its Datum text reads as |
| Loader.KeyAll | utils.py:38-41 | definition; meaning in Loader.KeyedRowFromLine and Loader.LineHasKeyedRow |
| Loader.StoreMatches | utils.py:46 | a decision is listed for hash h exactly when the store has a line (h, decision) |
| Loader.JoinRow | utils.py:46 | the left join of one row gives that row with each matching decision, or with none when no line matches |
| Loader.MergeLeftMembers | utils.py:46 | the merge holds exactly the left rows, each with a matching store decision or with none |
| Loader.JoinedMembers | utils.py:46-47 | after the merge and deduplication the same pairs remain |
| Loader.RawTableValues | utils.py:29-30 | the stacked and deduplicated table holds exactly the lines of the files, one row per distinct line |
| Loader.KeyedTableSize | utils.py:29-41 | there are as many keyed rows as distinct lines |
| Loader.KeyedRowFromLine | utils.py:29-41 | every keyed row comes from a line, with the hash and group of that line |
| Loader.LineHasKeyedRow | utils.py:29-41 | every line of the files has a keyed row |
| Loader.LoadSucceeds | utils.py:26-32 | the model's load fails exactly when there are no files or some Datum does not parse; with no files it fails with that error (the program failures it leaves out are under "Left out") |
| Loader.LoadData | utils.py:24-63 | the loop over the files, then the deduplication, computes the load |
| Loader.LoadWithoutStoreDefaults | utils.py:55-61 | without a store each row is "Other" and not split, and carries its identity hash, its group key and its actual date |
| Loader.LoadWithoutStoreRows | utils.py:29-58 | without a store there is one row per distinct line, every row comes from a line, and every line has a row |
| Loader.DefaultRowFromLine | utils.py:55-61 | without a store every row is derived from a line of the files |
| Loader.LineInDefaultRows | utils.py:55-61 | without a store every line of the files is carried by a row |
| Loader.LoadImportTwice | utils.py:29-30 | importing the same exports twice gives the same table as importing them once |
| Loader.LoadAbsorbsOverlap | utils.py:29-30 | an export whose lines were all already imported changes nothing |
| Loader.KeyingSameValues | utils.py:32-41 | parsing and keying look at the row values only, never at the labels |
| Loader.KeyedAsWrittenSameRows | utils.py:29-41 | the load as written has the same rows, in the same order, and the same failures as the corrected one |
| Loader.JoinedRowFromLine | utils.py:38-47 | a merged row carries its line's hash and group, and a decision the store holds for that hash (or none) |
| Loader.LoadWithStoreRow | utils.py:46-61 | with a store, each row has its hash column dropped and comes from a line; its decisions are the store's for its hash, or "Other" and false when the store has none |
| Loader.LineInStoreRows | utils.py:46-52 | with a store, every line of the files appears with every decision the store holds for its hash |
| Loader.LoadLabelsIncrease | utils.py:29-47 | the corrected load labels its rows in increasing order, so each label names one row |
| Loader.LoadCategoriesValid | utils.py:50-57 | with a store whose categories are options, every loaded category is an option |
| Loader.FillsOfJoinedRow | utils.py:50-52 | an unmatched merged row is filled "Other"/false when corrected and "nan"/true as written; a matched one is filled the same way in both |
| Loader.AsWrittenUnmatchedRows | utils.py:50-52 | the load as written differs from the corrected one exactly on rows whose hash the store does not know: those become "nan" (not an option) and split |
| Loader.EmptyStoreAsWritten | utils.py:50-52 | with an empty store, the load as written marks the first row "nan" and split |
| Loader.ExampleUnmatchedAsWritten | utils.py:50-52 | one export line and an empty store give, as written, Category "nan" and Split true |
| Loader.ExampleDateFields | utils.py:32 | the fields "01", "02" and "2023" parse, and 1 February 2023 is a real date |
| Loader.ExampleDateParses | utils.py:32 | "01/02/2023" parses to 1 February 2023 at midnight |
| Review.Decide | utils.py:165-166 | the row gets the new decisions, and every other column is kept |
| Review.SetDecision | utils.py:165-166 | a write by label changes the decisions of exactly the rows carrying one of the labels, and nothing else |
| Review.SetDecisionUnion | utils.py:206-208 | writing one set of labels and then another equals writing both at once |
| Review.LabelCount | utils.py:165 | there are never more labels than rows, and exactly as many when each label names one row |
| Review.IncreasingLabelsUnique | utils.py:29 | increasing labels are unique |
| Review.UpdateChangesOnlySelected | utils.py:162-166 | with unique labels, update_dataframe changes only the selected row, and only its decisions |
| Review.SimilarRows | utils.py:180-181 | a row is similar exactly when it is in the table, in the selected row's group, and under another label |
| Review.SimilarEntry | utils.py:183-187 | the similar rows are stored exactly when some row is similar |
| Review.SimilarLabels | utils.py:180-181 | the labels apply_to_all writes are exactly those of same-group rows under another label |
| Review.ApplyToAllChangesExactlySimilar | utils.py:202-208 | with unique labels, apply_to_all sets the decisions of exactly the same-group rows under another label, and changes nothing else |
| Review.SimilarEntryLabels | utils.py:183-187 | the stored entry names exactly the labels of the similar rows, and none when it is absent |
| Review.SimilarLabelsKeptByWrite | utils.py:165-166 | writing decisions never changes which labels are similar to a row |
| Review.SimilarLabelsKeptBySort | utils.py:215 | reordering the rows never changes which labels are similar to a row |
| Review.InsertByDate | utils.py:215 | insertion adds exactly the one row |
| Review.InsertKeepsSorted | utils.py:215 | inserting into a table sorted by actual date keeps it sorted |
| Review.SortRows | utils.py:215 | the result is sorted by actual date and is a permutation of the rows |
| Review.PermutationKeeps | utils.py:215 | a permutation keeps the row count, the labels and well-formed dates |
| Review.FirstWithCategory | utils.py:216-217 | the result is the first row with the category, or None when there is none |
| Review.FindLabel | utils.py:219 | the result is a row with the label, and None (the KeyError) exactly when the label is absent |
| Review.NextOtherIsEarliest | utils.py:215-217 | in the sorted table, the first "Other" row has the earliest actual date of all "Other" rows |
| Review.StoreRowOf | utils.py:227-229 | definition: the recomputed hash and the row's decisions; meaning in Review.SavedHashIsLoadedHash |
| Review.Snapshot | utils.py:229-230 | the store gets one line per row of the table |
| Review.SavedHashIsLoadedHash | utils.py:227-229 | the hash saved for any row that keeps the facts of a loaded row is that row's load-time hash, whatever its decisions and position have become |
| Review.SavedHashAfterWrite | utils.py:227-229 | after any decision write on the loaded table, each row is saved with its load-time hash |
| Review.SetDecisionKeepsLines | utils.py:165-166 | writing decisions never loses a line of the files from the table |
| Review.PermutationKeepsLines | utils.py:215 | sorting never loses a line of the files from the table |
| Review.ReloadRestoresDecisions | utils.py:229-230 | after a save and a reload, each row's hash and decisions are those of a saved row |
| Review.SnapshotKnowsRow | utils.py:229-230 | the saved store holds a decision for every row's hash |
| Review.ReloadRestoresOwnDecisions | utils.py:46-52 | when rows sharing a hash share their decisions, a save then a reload gives each line back its own decisions |
| Review.SetDecisionKeepsOptions | utils.py:165-166 | choosing from the options keeps every category in the table an option |
| Review.LoadedRowWellFormed | utils.py:32-61 | every loaded row has a real posting date at midnight and a real actual date |
| Review.LoadedTableFitsSession | utils.py:24-63 | a loaded table meets the session's invariant: unique labels and well-formed dates |
| Review.LoadCoversLines | utils.py:29-52 | every line of the files is carried by a loaded row, with or without a store |
| Review.ConcatOfTwoLines | utils.py:29 | as written, two one-line exports stack as two rows both labelled 0 |
| Review.DedupOfTwoLines | utils.py:30 | two different lines both stay |
| Review.SharedLabelAsWritten | utils.py:29 | as written, loading two different one-line exports gives two rows, both labelled 0 |
| Review.ExampleUpdateHitsOtherExport | utils.py:165-166 | as written, the decisions set for the first export's row also land on the second export's row |
| Review.ExportRowOf | utils.py:240-242 | definition; meaning in Review.ExportReadsBack |
| Review.ExportTable | utils.py:238-243 | the export has one line per row |
| Review.ExportReadsBack | utils.py:240-242 | an exported line keeps the row's columns and decisions; Split is 1 exactly when set, else 0; Datum reads back to the posting date |
| Review.Session.constructor | utils.py:24-63 | a session starts on a loaded table with nothing selected and no similar rows |
| Review.Session.UpdateDataframe | utils.py:162-166 | the widget values become the decisions of the selected label's rows; the invariant is kept |
| Review.Session.DisplayRow | utils.py:179-187 | the similar rows of the displayed (selected) row are stored, or removed when there are none, which restores the session invariant |
| Review.Session.ShowEntryOnClick | utils.py:190-199 | with no click nothing changes; otherwise the clicked position becomes the selection and is displayed |
| Review.Session.SortByActualDate | utils.py:215 | the table becomes a sorted permutation of itself; the invariant is kept |
| Review.Session.MoveToNextRow | utils.py:214-221 | after sorting, the first "Other" row is selected, else the row labelled one past the selection; with neither, moved is false and the selection stays |
| Review.Session.SaveDataframe | utils.py:224-230 | the store becomes one line per row, with the recomputed hash and the row's decisions |
| Review.Session.WriteSimilar | utils.py:206-208 | the loop writes the decisions on the labels of all stored similar rows, which are exactly the rows of the selected row's group under another label |
| Review.Session.ApplyToAll | utils.py:202-211 | apply_to_all writes the rows of the selected row's group under another label, saves that table, then moves on |
| Review.Session.ApplySingleRow | utils.py:233-235 | apply_single_row saves the table, then moves on |
| Review.Session.Export | utils.py:238-243 | the export becomes the projection of the table |

## Left out

- MD5 (RFC 1321) in `hash_f` and `assign_group` is a parameter, `Hashing.digest`, and no collision-freedom is assumed.
- `str(float(Bedrag) / 1000)` in `hash_f` is floating point. It is a parameter too, `Hashing.scaledAmount`, applied to the amount's text.
- Amounts and balances are kept as their text. The later `astype(float)` of Bedrag (`utils.py:39`) and the charts that use it are not modelled. Two visible effects are lost with this:
  - `read_csv` with `decimal=","` reads Bedrag and Saldo as numbers, so `drop_duplicates` (`utils.py:30`) treats "2,50" and "2,5" as equal. `Duplicates.Dedup` compares the texts and keeps both.
  - export (`utils.py:243`) writes the number back, e.g. "2.5", not the original text. Review.ExportReadsBack states that `details` is kept, which holds only for the text the model keeps.
- Loader.LoadSucceeds: four failure behaviours of the program are not modelled.
  - A Bedrag that `read_csv` cannot read as a number, such as "1.234,56", stays text. `float()` at `utils.py:21` then raises ValueError and the load fails. The model loads it, because `Hashing.scaledAmount` is total.
  - An empty Datum cell is read as a missing value. `to_datetime` turns it into NaT without error (`utils.py:32`), so the program loads a row without a date. The model stops with `UnparseableDate("")`, since it has no rows without a date.
  - An Omschrijving cell that `read_csv` reads as missing (empty, or a missing-value token such as "NA" or "null") becomes NaN. The concatenation in `hash_f` (`utils.py:21`) then raises TypeError, and so would `.encode` in `assign_group` (`utils.py:78`). The model hashes and groups the text, because a description is always a string.
  - When the data files hold a header but no lines, `df.apply(hash_f, axis=1)` on the empty frame gives a frame rather than a column, and the assignment at `utils.py:38` raises ValueError. The model loads the empty table (`Success([])`).
- The following are I/O and are not modelled: CSV reading and writing, latin-1 encoding, the decimal separator, and the `DATA_FILES` glob. The files' lines and the store's contents are parameters; the export's contents are a field.
- Photo sync, EXIF reading, calendar events and location history (`utils.py:66-159`) are not modelled. They are foreign calls and file I/O. `Review.Session.DisplayRow` does not model the map, photo and calendar lookups, nor the `selected_row_dict` display.
- Streamlit widgets are not modelled. Their values are method parameters, and `session_state` is the `Session` class.
- main.py is not part of this model. That includes its "Other"-first initial sort, its progress counter and the charts.
- main.py:93 looks up the selected row's category in `CATEGORY_OPTIONS`. This would fail on the "nan" category of Finding 1. That failure is not modelled beyond the proof that "nan" is not an option.
- Unicode case folding and `\d` beyond ASCII are not modelled. Text is ASCII.
- The pandas Timestamp range (years 1677 to 2262) is not modelled. Years 1 to 9999 are accepted, as `strptime` accepts them.
- Review.SortRows: pandas' sort is not stable, so the model promises only some sorted permutation, not pandas' exact tie order.
- Review.Session.Valid requires unique row labels. The corrected load provides that (`Review.LoadedTableFitsSession`). Sessions over the as-written load's repeated labels are shown only by `Review.ExampleUpdateHitsOtherExport`.
- Review.Session.MoveToNextRow: in a table with repeated labels, `df.loc[name + 1]` would return several rows. That path is not modelled.
- Review.Snapshot: a store line is a record, so the CSV column order is not part of it. `Config.StoreColumnsExact` and `Config.StoreColumnsAfterMergeExact` state that order for tables loaded without and with a store.
- Config.ExportColumnsExact: `read_csv(usecols=...)` keeps the file's own column order, not the order of `RELEVANT_COLUMNS` (`config.py:3-4`). The stated export order holds only for a bank export that lists the columns in that order.
- Review.ExportTable: the table's column order is not modelled; `Config.ExportColumnsExact` states it. The hash column is present exactly when the load had no store (`Records.Transaction.hash`).
- Review.Session.MoveToNextRow: `df.loc` with a missing label raises KeyError. Here that ends the callback (`moved` false) and leaves the selection unchanged.

## Findings

| source | as written | input that shows it | evidently intended | confidence | as-written member | corrected member |
|---|---|---|---|---|---|---|
| utils.py:50-52 | With a store, Category is cast to text before the missing values are filled (pandas 2.x). Unmatched rows get the text "nan", and `astype(bool)` turns their missing Split into True. | one export line and an empty store (`Loader.ExampleUnmatchedAsWritten`) | unmatched rows get "Other" and false, as in the branch without a store (`utils.py:55-58`) | not executed | Loader.AsWrittenUnmatchedRows | Loader.LoadCategoriesValid |
| utils.py:29 | `pd.concat` without `ignore_index` keeps each export's own labels 0..n-1. Lines of different exports share labels, and the label writes of `update_dataframe` (`utils.py:165-166`) and `apply_to_all` (`utils.py:207-208`) also reach the other exports' rows with that label. | two one-line exports and no store (`Review.TwoExports`) | one label per line, so that a write reaches only the selected row | not executed | Review.ExampleUpdateHitsOtherExport | Review.UpdateChangesOnlySelected |

In the corrected model:

- `Loader.Load` relabels the stacked lines 0..n-1 (`Loader.Stacked`) and fills unmatched rows with "Other" and false (`Loader.FillDecision`).
- `Loader.LoadLabelsIncrease` and `Review.LoadedTableFitsSession` prove that its labels are unique.
- `Loader.LoadAsWritten` keeps both defects, and `Loader.KeyedAsWrittenSameRows` proves it otherwise agrees with the corrected load.
