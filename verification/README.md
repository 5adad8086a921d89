# Community Notes data loading and rating filters, in Dafny

This project models the ingestion and cleaning pipeline that feeds the Community Notes
scorer. It covers four parts of the pipeline:

- **Base TSV reader.** It parses a file as headerless first. Only when that parse raises
  `ValueError` does it parse again with a header row, and then the columns read must be
  exactly the schema's.
- **Duplicate filters.** Exact duplicate rows are dropped, keeping the first occurrence.
  After that, `noteId` must be a key of the notes and `(raterParticipantId, noteId)` a
  key of the ratings, or the filter fails. It never silently picks a row by key.
- **Filter on rating status.** Each rating is left-joined to the note status history.
  The rating is kept if its note is misleading, or if the note was deleted and its
  status row has a recorded time, or if the note is not misleading and its status was
  recorded after the launch of the not-misleading answer.
- **Minimum-count filter.** It makes three passes: notes with too few ratings, then
  raters with too few ratings, then notes again. It stops there and does not run to a
  fixed point.

The **data loader** ties these together. It loads user enrollments, notes, status history
and ratings, in that order:

- The tweet ids of the notes are coerced to text.
- The status history is merged with the notes this same load has just set.
- The ratings are deduplicated first. Each rating then gets a unified helpfulness in half
  units, built by six overwriting column assignments. Rows without one are dropped, and
  the status filter is applied when asked.

Tables are sequences of records. A missing cell (NaN) is `None`, and a comparison with a
missing value is false. Each `helpfulNum` of 0, 0.5 and 1 is stored as 0, 1 and 2. Some
collaborators are parameters of the model:

- the CSV parser, as a function from a request to `Parsed`, `ValueError` or another error;
- the merge of status history with note information;
- the constants (schemas, thresholds and the launch time).

The modules are:

- `Results`: Option, Result, Outcome.
- `Tables`: deduplication and primary keys.
- `Decimal`: integer text.
- `Records`: row types.
- `NotesFilters`.
- `RatingsFilters`.
- `TsvReaders`.
- `ProcessData`: the `DataLoader` class.

Two consequences of the order of statements in `_load_ratings` are stated explicitly:

- **Deduplication comes before derivation.** The duplicate filter runs at
  process_data.py:94, before the unified helpfulness is derived at 99-104 and unanswered
  rows are dropped at 105. So two ratings with one key fail the load even when one of them
  has no answer (`ProcessData.DeduplicationPrecedesDerivation`).
- **The level is written last.** The three helpfulness-level assignments
  (process_data.py:102-104) come after the legacy `helpful` and `notHelpful` assignments
  (100-101) and overwrite them. So `helpful == 1` with level not-helpful gives 0, not 1
  (`ProcessData.LevelOverridesLegacyFlags`).

## Model

| member | source | states |
|---|---|---|
| Tables.DropDuplicates | static/sourcecode/ratings_filters.py:22 | `drop_duplicates`: the result has no repeated row, every input row occurs in it, every row of it is an input row, and it is a sub-multiset of the input |
| Tables.DropDuplicatesKeepsFirstOccurrences | static/sourcecode/notes_filters.py:18 | the rows kept are the first occurrences of each distinct row, in input order |
| Tables.DropDuplicatesOfDistinct | static/sourcecode/notes_filters.py:18 | a table without repeated rows is left unchanged by `drop_duplicates` |
| Tables.KeyCountIsRowCountIffUnique | static/sourcecode/notes_filters.py:20-22 | the number of distinct keys equals the number of rows if and only if no two rows share a key (the test both filters make) |
| Tables.KeysUniqueOfSubMultiset | static/sourcecode/ratings_filters.py:28-32 | removing rows, in any order, keeps a key unique |
| Tables.KeySet | static/sourcecode/ratings_filters.py:25-27 | the distinct keys include the key of every row and are no more than the rows |
| Tables.DropDuplicatesRequiringUniqueKey | static/sourcecode/ratings_filters.py:22-32 | succeeds exactly when the deduplicated rows have unique keys, then returns them; otherwise fails with fewer distinct keys than rows |
| NotesFilters.FilterDuplicateNotes | static/sourcecode/notes_filters.py:18-24 | succeeds if and only if the deduplicated notes have unique noteIds, then returns them with as many noteIds as rows; the failure carries the distinct-noteId count and the row count |
| NotesFilters.FilterDuplicateNotesIdempotent | static/sourcecode/notes_filters.py:18-24 | filtering accepted notes again returns the same result |
| NotesFilters.FilterDuplicateNotesKeepsFirstOccurrences | static/sourcecode/notes_filters.py:18 | every input note is in the output, and the output is the first occurrences in input order |
| RatingsFilters.FilterDuplicateRatings | static/sourcecode/ratings_filters.py:22-32 | succeeds if and only if no two deduplicated ratings share (raterParticipantId, noteId), then returns the deduplicated ratings, which contain every input rating; the failure reports fewer distinct pairs than ratings |
| RatingsFilters.StatusRowsFor | static/sourcecode/ratings_filters.py:58-63 | the rows of the status history with the given noteId, in table order: each is a row of the history with that noteId, and there are none exactly when no row has it (multiplicity in `StatusRowsForMultiplicity`) |
| RatingsFilters.StatusRowsForMultiplicity | static/sourcecode/ratings_filters.py:58-63 | a status row appears among a note's matches exactly as often as in the history if it belongs to the note, and never otherwise |
| RatingsFilters.JoinOne | static/sourcecode/ratings_filters.py:58-63 | a rating joins to one row per matching status row, or to a single unmatched row, each carrying the rating; the i-th joined row carries the time and classification of the i-th match, and the unmatched row carries neither (NaN) |
| RatingsFilters.LeftJoinStatus | static/sourcecode/ratings_filters.py:58-63 | the left join has at least one row per rating, and each joined row holds an input rating (counts in `LeftJoinCopies`, status columns in `LeftJoinCarriesStatus`) |
| RatingsFilters.JoinWidth | static/sourcecode/ratings_filters.py:58-63 | the number of joined rows a rating of the note produces: its number of status rows, or 1 when it has none |
| RatingsFilters.JoinedCopies | static/sourcecode/ratings_filters.py:58-63 | the number of joined rows holding a given rating |
| RatingsFilters.JoinedCopiesAppend | static/sourcecode/ratings_filters.py:58-63 | the count of joined rows holding a rating adds up over concatenation |
| RatingsFilters.JoinedCopiesOfOneRating | static/sourcecode/ratings_filters.py:58-63 | the rows joined to one rating hold that rating and no other |
| RatingsFilters.LeftJoinCopies | static/sourcecode/ratings_filters.py:58-63 | each rating appears in the left join once per copy in the input times the join width of its note, so every input rating appears at least once |
| RatingsFilters.LeftJoinCarriesStatus | static/sourcecode/ratings_filters.py:58-63 | every joined row of a note without status rows has no time and no classification, and every other joined row carries the time and classification of one of its note's status rows |
| RatingsFilters.RetainedRatings | static/sourcecode/ratings_filters.py:105-116 | the mask keeps at most the joined rows, and every kept row is the rating of a joined row with the helper columns dropped (exact multiplicity in `RetainedRatingsMultiplicity`) |
| RatingsFilters.RetainedCopies | static/sourcecode/ratings_filters.py:105-107 | the number of joined rows holding a given rating that the mask keeps |
| RatingsFilters.RetainedRatingsMultiplicity | static/sourcecode/ratings_filters.py:105-116 | each rating is kept exactly as often as the mask selects a joined row holding it, which is at most the number of joined rows holding it |
| RatingsFilters.CategoriesPartitionJoinedRows | static/sourcecode/ratings_filters.py:70-107 | the number of kept rows is the sum of the misleading, deleted-but-recorded and new-UI counts, and the six category counts (the reported ones plus those the diagnostics omit) sum to the number of joined rows; the per-row statement is `RowInExactlyOneCategory` |
| RatingsFilters.CategoryOf | static/sourcecode/ratings_filters.py:70-86 | the one category of a joined row, decided from its classification and time |
| RatingsFilters.RowInExactlyOneCategory | static/sourcecode/ratings_filters.py:70-107 | a joined row is in a category if and only if it is the row's `CategoryOf`, so the six categories are pairwise exclusive and one always holds; the mask keeps the row if and only if that category is misleading, deleted-but-recorded or new-UI |
| RatingsFilters.DeletedNote | static/sourcecode/ratings_filters.py:70 | the row's classification is missing |
| RatingsFilters.NotDeletedMisleading | static/sourcecode/ratings_filters.py:71-73 | not deleted and classified misleading |
| RatingsFilters.DeletedButInNsh | static/sourcecode/ratings_filters.py:74-76 | deleted, with a recorded time |
| RatingsFilters.DeletedNotInNsh | static/sourcecode/ratings_filters.py:78 | deleted, with no recorded time |
| RatingsFilters.NotDeletedNotMisleadingOldUI | static/sourcecode/ratings_filters.py:79-82 | classified not misleading with a time at or before the launch; a missing time compares false |
| RatingsFilters.NotDeletedNotMisleadingNewUI | static/sourcecode/ratings_filters.py:83-86 | classified not misleading with a time after the launch; a missing time compares false |
| RatingsFilters.Retained | static/sourcecode/ratings_filters.py:105-107 | the mask: misleading, or deleted but recorded, or new-UI (`RowInExactlyOneCategory` ties it to the categories) |
| RatingsFilters.Report | static/sourcecode/ratings_filters.py:88-103 | the five logged counts, each the number of joined rows and the number of distinct notes of one category (`CategoriesPartitionJoinedRows` relates them to the kept rows) |
| RatingsFilters.LookupStatus | static/sourcecode/ratings_filters.py:58-63 | the looked-up row belongs to the note, and there is none exactly when the note has no status row |
| RatingsFilters.KeepRatingCases | static/sourcecode/ratings_filters.py:70-107 | no status row drops the rating; with a row, it is kept if and only if the note is misleading, or deleted with a recorded time, or not misleading with a time after the launch |
| RatingsFilters.KeepRating | static/sourcecode/ratings_filters.py:70-107 | the keep decision for a rating given its looked-up status row (cases in `KeepRatingCases`) |
| RatingsFilters.KeptByStatus | static/sourcecode/ratings_filters.py:105-107 | the keep decision for a rating from its note's first status row |
| RatingsFilters.FilterByStatus | static/sourcecode/ratings_filters.py:105-107 | the ratings the status decision keeps, in input order (`FilterByStatusMultiplicity`, `MisleadingMaskIsLookupFilter`) |
| RatingsFilters.FilterByStatusMultiplicity | static/sourcecode/ratings_filters.py:105-107 | the lookup filter keeps every copy of a rating whose status keeps it and no copy of any other |
| RatingsFilters.MisleadingMaskIsLookupFilter | static/sourcecode/ratings_filters.py:58-116 | with one status row per note, join-then-mask equals the per-rating lookup filter, in input order |
| RatingsFilters.FilterRatingsOfMisleadingNotes | static/sourcecode/ratings_filters.py:58-117 | a report exists if and only if `should_log`; every output row is an input rating; with one status row per note the output is the lookup filter |
| RatingsFilters.ShouldLogDoesNotChangeRatings | static/sourcecode/ratings_filters.py:88-103 | `should_log` does not change the ratings returned |
| RatingsFilters.UniqueStatusRows | static/sourcecode/ratings_filters.py:58-63 | with noteId a key of the status history, a note matches at most one row |
| RatingsFilters.JoinOneRetainedAgrees | static/sourcecode/ratings_filters.py:70-107 | on one rating with at most one status row, the mask keeps it exactly when the lookup decision does |
| RatingsFilters.RetainedRatingsAppend | static/sourcecode/ratings_filters.py:105-107 | the row mask distributes over concatenation of joined tables |
| RatingsFilters.MisleadingFilterExamples | static/sourcecode/ratings_filters.py:58-117 | worked cases on six ratings of notes 1 to 6: the misleading note's and the deleted-but-recorded note's ratings are kept; the never-recorded note's and the not-misleading notes' recorded before or at the launch are dropped; the one recorded after the launch is kept |
| RatingsFilters.SampleHistoryDecides | static/sourcecode/ratings_filters.py:70-107 | on the sample history a rating of notes 1 to 6 is kept if and only if its note is 1, 2 or 6 |
| RatingsFilters.FilterByStatusOfExample | static/sourcecode/ratings_filters.py:105-107 | the lookup filter keeps exactly the kept ratings, in input order |
| RatingsFilters.SampleHistoryKeeps | static/sourcecode/ratings_filters.py:71-86 | the misleading, deleted-but-recorded and after-launch rows of the sample keep their ratings |
| RatingsFilters.SampleHistoryDropsUnrecorded | static/sourcecode/ratings_filters.py:78 | a note with no status row loses its ratings |
| RatingsFilters.SampleHistoryDropsBeforeLaunch | static/sourcecode/ratings_filters.py:79-82 | not-misleading notes recorded before or exactly at the launch lose their ratings |
| RatingsFilters.SampleHistoryKeysUnique | static/sourcecode/ratings_filters.py:58-63 | the sample history has one row per note |
| RatingsFilters.RepeatedStatusRowsRepeatRatings | static/sourcecode/ratings_filters.py:58-63 | two status rows for one note make the left join emit that rating twice |
| RatingsFilters.NoteRatingCount | static/sourcecode/ratings_filters.py:161 | the number of ratings of a note, `groupby(noteId).size()` (`NoteRatingCountIsGroupSize`) |
| RatingsFilters.RaterRatingCount | static/sourcecode/ratings_filters.py:188 | the number of ratings of a rater, `groupby(raterParticipantId).size()` (`RaterRatingCountIsGroupSize`) |
| RatingsFilters.NoteIdColumn | static/sourcecode/ratings_filters.py:161 | the noteId column, one entry per rating in order |
| RatingsFilters.RaterColumn | static/sourcecode/ratings_filters.py:188 | the raterParticipantId column, one entry per rating in order |
| RatingsFilters.NoteRatingCountIsGroupSize | static/sourcecode/ratings_filters.py:161 | a note's rating count is the number of times its noteId occurs in the noteId column |
| RatingsFilters.RaterRatingCountIsGroupSize | static/sourcecode/ratings_filters.py:188 | a rater's rating count is the number of times it occurs in the rater column |
| RatingsFilters.RatingsOnNotesWithCount | static/sourcecode/ratings_filters.py:161-169 | the ratings whose note has at least the threshold of ratings in the counted table, in input order (`NotePassMultiplicity`) |
| RatingsFilters.RatingsFromRatersWithCount | static/sourcecode/ratings_filters.py:188-196 | the ratings whose rater has at least the threshold of ratings in the counted table, in input order (`RaterPassMultiplicity`) |
| RatingsFilters.NotePassMultiplicity | static/sourcecode/ratings_filters.py:161-169 | a note pass keeps every copy of a rating whose note has enough ratings in the counted table and no copy otherwise |
| RatingsFilters.RaterPassMultiplicity | static/sourcecode/ratings_filters.py:188-196 | a rater pass keeps every copy of a rating whose rater has enough ratings and no copy otherwise |
| RatingsFilters.NotePassIsSubMultiset | static/sourcecode/ratings_filters.py:166-169 | a note pass returns a sub-multiset of its input |
| RatingsFilters.RaterPassIsSubMultiset | static/sourcecode/ratings_filters.py:193-196 | a rater pass returns a sub-multiset of its input |
| RatingsFilters.NotePassCount | static/sourcecode/ratings_filters.py:161-169 | a note pass keeps all of a note's ratings or none of them |
| RatingsFilters.NotePassKeepsAll | static/sourcecode/ratings_filters.py:161-169 | a note pass that selects every row returns its input |
| RatingsFilters.FilterRatingsOnNotesWithMinimalNumRatings | static/sourcecode/ratings_filters.py:156-180 | the output is a sub-multiset of the input and every note in it has at least the threshold of ratings |
| RatingsFilters.FilterRatingsFromRatersWithMinimalNumRatings | static/sourcecode/ratings_filters.py:183-206 | the output is a sub-multiset of the input and every rater in it had at least the threshold of ratings in the input |
| RatingsFilters.NotePassIdempotent | static/sourcecode/ratings_filters.py:156-180 | applying the note pass to its own output changes nothing |
| RatingsFilters.FilterRatingsForTraining | static/sourcecode/ratings_filters.py:122-153 | after the three passes the output is a sub-multiset of the input and every note in it meets the note threshold |
| RatingsFilters.RaterMayEndBelowThreshold | static/sourcecode/ratings_filters.py:138-153 | raters are not re-checked: with both thresholds 2, a rater ends with one rating |
| RatingsFilters.NoteCountsOfExample | static/sourcecode/ratings_filters.py:161 | the per-note counts of the seven-rating sample |
| RatingsFilters.RaterCountsOfExample | static/sourcecode/ratings_filters.py:188 | the per-rater counts of the sample |
| RatingsFilters.RaterPassOfExample | static/sourcecode/ratings_filters.py:188-196 | the rater pass removes only the one-rating rater's rating |
| RatingsFilters.NoteCountsAfterRaterPass | static/sourcecode/ratings_filters.py:161 | after the rater pass one note is left with a single rating |
| RatingsFilters.SecondNotePassOfExample | static/sourcecode/ratings_filters.py:148-151 | the second note pass removes that note's rating |
| RatingsFilters.RaterCountOfExampleOutput | static/sourcecode/ratings_filters.py:153 | the rater ends with one rating |
| Decimal.NatToString | static/sourcecode/process_data.py:81 | the decimal digits of a natural number, most significant first (`NatToStringRoundTrip`) |
| Decimal.ParseInt | static/sourcecode/process_data.py:81 | reads an optional minus sign and decimal digits back to an integer (`IntToStringRoundTrip`) |
| Decimal.NatToStringRoundTrip | static/sourcecode/process_data.py:81 | the decimal text of a natural number reads back as that number |
| Decimal.IntToString | static/sourcecode/process_data.py:81 | an integer's text is never empty |
| Decimal.IntToStringRoundTrip | static/sourcecode/process_data.py:81 | the text `astype(str)` gives an integer parses back to it |
| Decimal.IntToStringInjective | static/sourcecode/process_data.py:81 | distinct integers have distinct text |
| TsvReaders.TsvReader.Separator | static/sourcecode/tsv_readers/tsv_reader_base.py:56-58 | the separator is a single tab |
| TsvReaders.TsvReader.Columns | static/sourcecode/tsv_readers/tsv_reader_base.py:65-67 | the column names are the mapping's keys in mapping order |
| TsvReaders.TsvReader.VerifyReadColumns | static/sourcecode/tsv_readers/tsv_reader_base.py:39-54 | passes if and only if the columns read equal the expected columns as sets; otherwise reports the path, extra = read minus expected, missing = expected minus read |
| TsvReaders.TsvReader.HeaderlessRequest | static/sourcecode/tsv_readers/tsv_reader_base.py:21-26 | the first parse uses the path, a tab, the mapping and the forced column names |
| TsvReaders.TsvReader.HeaderRequest | static/sourcecode/tsv_readers/tsv_reader_base.py:30-34 | the fallback parse uses the path, a tab and the mapping, with no forced names |
| TsvReaders.TsvReader.ReadOutcome | static/sourcecode/tsv_readers/tsv_reader_base.py:19-37 | the outcome of the two-attempt read as a value (`ReadOutcomeCases`) |
| TsvReaders.TsvReader.Read | static/sourcecode/tsv_readers/tsv_reader_base.py:14-37 | the two-attempt read returns a successful headerless parse as is, and returns a table from the fallback only when its columns match the schema as a set |
| TsvReaders.ReadOutcomeCases | static/sourcecode/tsv_readers/tsv_reader_base.py:19-37 | the outcome case by case: headerless table unverified; another error is propagated; after `ValueError` the header table is returned if and only if its columns verify, and otherwise the mismatch or the parse error is returned |
| TsvReaders.FallbackOnlyAfterValueError | static/sourcecode/tsv_readers/tsv_reader_base.py:19-28 | when the headerless parse does not raise `ValueError`, what the header parse would do makes no difference |
| TsvReaders.ColumnMismatchDescribesActual | static/sourcecode/tsv_readers/tsv_reader_base.py:49-54 | a reported mismatch is non-empty, its extra and missing sets are disjoint, and they rebuild the columns read from the expected ones |
| TsvReaders.VerifyIgnoresOrder | static/sourcecode/tsv_readers/tsv_reader_base.py:47-49 | column order and repetition do not affect the check |
| TsvReaders.ColumnSetSize | static/sourcecode/tsv_readers/tsv_reader_base.py:65-67 | with each key once in the mapping, there are as many expected columns as mapping entries |
| TsvReaders.DistinctLabelSetSize | static/sourcecode/tsv_readers/tsv_reader_base.py:47-48 | distinct labels give a set of the same size |
| ProcessData.UnifiedHelpfulness | static/sourcecode/process_data.py:99-105 | the unified value is 0, 0.5 or 1, and is absent exactly when there is no recognised level, `notHelpful` is not 1 and `helpful` is not 1 |
| ProcessData.WithUnifiedHelpfulness | static/sourcecode/process_data.py:99-104 | each row gets its unified helpfulness and no other column changes |
| ProcessData.PopulateHelpfulNum | static/sourcecode/process_data.py:99-104 | the six overwriting assignments, applied in order, give every row its unified helpfulness by priority (level, then `notHelpful`, then `helpful`) |
| ProcessData.LevelOverridesLegacyFlags | static/sourcecode/process_data.py:100-102 | `helpful == 1` with level not-helpful gives 0 |
| ProcessData.AssignHelpfulNumWhere | static/sourcecode/process_data.py:99-104 | one `.loc` assignment: sets `helpfulNum` on the rows meeting the condition and leaves the others (`PopulateHelpfulNum`) |
| ProcessData.DropRatingsWithoutHelpfulNum | static/sourcecode/process_data.py:105 | the rows with a `helpfulNum`, in order (`DropRatingsWithoutHelpfulNumMultiplicity`) |
| ProcessData.DropRatingsWithoutHelpfulNumMultiplicity | static/sourcecode/process_data.py:105 | the drop keeps every copy of a rating with a value and no copy of one without |
| ProcessData.DropRatingsWithoutHelpfulNumIsSubMultiset | static/sourcecode/process_data.py:105 | the drop returns a sub-multiset of its input |
| ProcessData.TweetIdAsText | static/sourcecode/process_data.py:81 | the coerced id is text; text stays as it is; a numeric id's text parses back to it |
| ProcessData.CoerceTweetIds | static/sourcecode/process_data.py:81 | every tweet id becomes text and every other column of every note is unchanged |
| ProcessData.TweetIdCoercionInjective | static/sourcecode/process_data.py:81 | distinct numeric tweet ids stay distinct after coercion |
| ProcessData.NotesFromRead | static/sourcecode/process_data.py:78-82 | the duplicate filter on the notes read, then the tweet-id coercion (`LoadedNotesAreKeyedAndTextual`) |
| ProcessData.NoteStatusHistoryFromRead | static/sourcecode/process_data.py:84-86 | the merge of the rows read with the loaded notes, or a failure when no notes are loaded (`NoteStatusHistoryStepFrame`) |
| ProcessData.RatedRatings | static/sourcecode/process_data.py:99-105 | the deduplicated ratings with their unified helpfulness, without the unanswered ones (`RatedRatingIsDerived`) |
| ProcessData.RatingsFromRead | static/sourcecode/process_data.py:93-114 | the duplicate filter, the derivation, the drop and, when asked, the status filter (`LoadedRatingsAreRated`, `RatingsFromReadErrors`) |
| ProcessData.LoadedNotesAreKeyedAndTextual | static/sourcecode/process_data.py:78-82 | notes load if and only if the duplicate filter accepts them, and the loaded notes have unique noteIds and textual tweet ids, and are the deduplicated notes with only the tweet id changed |
| ProcessData.RatedRatingIsDerived | static/sourcecode/process_data.py:99-105 | a rating surviving the derivation has its unified helpfulness and is a read rating with only `helpfulNum` set |
| ProcessData.LoadedRatingsComeFromRated | static/sourcecode/process_data.py:105-112 | every loaded rating is one of the rated ratings (membership only: with repeated status rows the left join can repeat a rating, as `RatingsFilters.RepeatedStatusRowsRepeatRatings` shows) |
| ProcessData.LoadedRatingsAreRated | static/sourcecode/process_data.py:93-114 | every loaded rating has `helpfulNum` in {0, 0.5, 1}, equal to its unified helpfulness, and is a read rating with only `helpfulNum` set |
| ProcessData.WithUnifiedHelpfulnessKeepsKeys | static/sourcecode/process_data.py:99-104 | setting `helpfulNum` keeps rating keys unique |
| ProcessData.RatedRatingsKeysUnique | static/sourcecode/process_data.py:99-105 | deriving helpfulness and dropping unrated rows keep rating keys unique |
| ProcessData.FilterByStatusKeysUnique | static/sourcecode/ratings_filters.py:105-107 | the lookup filter on status keeps rating keys unique |
| ProcessData.LoadedRatingsKeysUnique | static/sourcecode/process_data.py:93-114 | loaded ratings have one row per (raterParticipantId, noteId) when the status filter is off or the status history has one row per note |
| ProcessData.StatusFilterAppliedIffRequested | static/sourcecode/process_data.py:107-114 | the status filter is applied to the rated ratings and the given history exactly when the flag is set |
| ProcessData.DeduplicationPrecedesDerivation | static/sourcecode/process_data.py:93-105 | two ratings sharing a key, one unanswered, fail the load, although deriving first would have dropped the unanswered one and passed |
| ProcessData.SharedKeyFailsDuplicateFilter | static/sourcecode/ratings_filters.py:22-31 | two distinct ratings with one (raterParticipantId, noteId) fail the duplicate filter |
| ProcessData.UnansweredDropped | static/sourcecode/process_data.py:99-105 | deriving first leaves one row from an answered and an unanswered rating |
| ProcessData.UserEnrollmentsStep | static/sourcecode/process_data.py:75-76 | the enrollment step on the loader state (`UserEnrollmentsStepFrame`) |
| ProcessData.NotesStep | static/sourcecode/process_data.py:78-82 | the notes step on the loader state (`NotesStepFrame`) |
| ProcessData.NoteStatusHistoryStep | static/sourcecode/process_data.py:84-86 | the status-history step on the loader state (`NoteStatusHistoryStepFrame`) |
| ProcessData.RatingsStep | static/sourcecode/process_data.py:88-114 | the ratings step on the loader state (`RatingsStepFrame`) |
| ProcessData.LoadedState | static/sourcecode/process_data.py:47-70 | the four steps in order, stopping at the first failure (`LoadStopsAtFirstFailure`, `LoadUsesFreshDependencies`) |
| ProcessData.UserEnrollmentsStepFrame | static/sourcecode/process_data.py:75-76 | the enrollment step sets only its table on success and changes nothing on failure |
| ProcessData.NotesStepFrame | static/sourcecode/process_data.py:78-82 | the notes step sets only its table on success and changes nothing on failure |
| ProcessData.NoteStatusHistoryStepFrame | static/sourcecode/process_data.py:84-86 | the status-history step sets only its table, or fails changing nothing, naming notes only when they are missing |
| ProcessData.RatingsStepFrame | static/sourcecode/process_data.py:88-114 | the ratings step sets only its table, or fails changing nothing, naming status history only when it is missing |
| ProcessData.RatingsFromReadErrors | static/sourcecode/process_data.py:93-112 | loading read ratings fails for a missing status history only when filtering is asked and the history is missing; any other failure is a key violation of the ratings |
| ProcessData.ChainStopsAtFirstFailure | static/sourcecode/process_data.py:60-70 | any four steps with the frames of the load steps, run in order and stopped at the first failure, leave earlier tables set, later tables as they were, and never fail for a missing dependency |
| ProcessData.LoadStopsAtFirstFailure | static/sourcecode/process_data.py:60-70 | a successful load sets all four tables; a failed one leaves every earlier table set and the failing and later tables as they were, and never fails for a missing dependency |
| ProcessData.LoadUsesFreshDependencies | static/sourcecode/process_data.py:60-114 | after a load the status history is merged with the notes just loaded and the ratings are filtered with the status history just loaded |
| ProcessData.DataLoader.constructor | static/sourcecode/process_data.py:26-45 | records the four paths; no table is loaded |
| ProcessData.DataLoader.Load | static/sourcecode/process_data.py:47-70 | the loader's new state and outcome are the four steps in order, stopping at the first failure |
| ProcessData.DataLoader.LoadUserEnrollments | static/sourcecode/process_data.py:75-76 | sets the enrollments table to the rows read, or fails on the read |
| ProcessData.DataLoader.LoadNotes | static/sourcecode/process_data.py:78-82 | sets the notes to the deduplicated notes with textual tweet ids, or fails on the read or a repeated noteId |
| ProcessData.DataLoader.LoadNotesStatusHistory | static/sourcecode/process_data.py:84-86 | sets the status history to the merge of the rows read with the loaded notes |
| ProcessData.DataLoader.LoadRatings | static/sourcecode/process_data.py:88-114 | sets the ratings to the deduplicated, rated and, when asked, status-filtered ratings |

## Left out

- Logging and printed diagnostics. `_log_results` and the `logger.info` calls are left
  out. The counts the status filter prints are modelled as a report value that does not
  affect the ratings. `if logging:` at process_data.py:72 tests a module and is always true.
- pandas parsing, dtype coercion and the reading of files. The parser is a function
  parameter of the reader. So the equivalence of headerless and header files with the same
  data is a property of the parser, not of the reader, and is not stated.
- Row order of the count filters. pandas' inner merge on a grouped key may reorder rows.
  The model keeps input order. The multiplicity lemmas of the minimum-count passes hold
  whatever the order; `NotePassIdempotent` and `RaterMayEndBelowThreshold` are stated as
  sequences in the model's input order.
- RatingsFilters.StatusRowsFor: the contract states what each match is and when there
  are none; how often each status row appears is `StatusRowsForMultiplicity`.
- RatingsFilters.LeftJoinStatus: the contract states only the size and that rows hold
  input ratings; the count of each rating is `LeftJoinCopies` and the status columns of
  each row are `LeftJoinCarriesStatus`.
- RatingsFilters.RetainedRatings: the contract states only that kept rows come from joined
  rows; exactly what is kept is `RetainedRatingsMultiplicity`.
- RatingsFilters.FilterRatingsOfMisleadingNotes: ratings are stated equal to the lookup
  filter only when the status history has one row per noteId. Otherwise the left join
  repeats ratings, as `RepeatedStatusRowsRepeatRatings` shows.
- `note_status_history.merge_note_info` is not part of this model. It is a function
  parameter of the loader.
- The constants module is not part of this model. The schemas, the two minimum counts and
  `notMisleadingUILaunchTime` are parameters.
- `main.py`, the TSV writers and the concrete reader subclasses. They wire paths and
  schemas, run the scorer, and raise on a missing output path or an in-memory write;
  none of that touches the loaded tables. The enrollment reader under `sourcecode/scoring` calls `read(has_header=...)`,
  which the base `read` does not accept.
- Missing key values. `noteId` and `raterParticipantId` are never missing in the model.
  pandas' `groupby` and `np.unique` treat NaN keys specially, and that is not modelled.
- Floating point. `helpfulNum` is in half units. A `tweetId` column read as float
  (`123.0`) is not modelled; only integer and text ids are.
- Default arguments of `load`. Both flags default to true in the source. The model's
  `Load` takes them explicitly.
- Attribute errors. Reading `self.notes` or `self._notes_status_history` before they are
  set raises in the source. The model returns `NotYetLoaded` instead, which
  `LoadStopsAtFirstFailure` shows never happens inside `Load`.
