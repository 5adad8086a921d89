/**
  The data loader: reads user enrollments, notes, note status history and ratings, in
  that order, each through the base TSV reader, and cleans them. Notes are deduplicated
  and their tweet ids rendered as text; status history is merged with the notes just
  loaded; ratings are deduplicated, given a unified helpfulness in half units, stripped
  of rows without one and, when asked, filtered by the status of their notes.

  The parser for each file and the status-history merge are collaborators outside the
  model: they are parameters of the loader.
 */
module ProcessData {
  import opened Results
  import opened Tables
  import opened Records
  import Decimal
  import opened TsvReaders
  import opened NotesFilters
  import opened RatingsFilters

  datatype TableKind = UserEnrollmentsTable | NotesTable | NoteStatusHistoryTable | RatingsTable

  /** Why loading stopped; each error names the table being loaded or, for a missing table, the one needed. */
  datatype LoadError =
    | ReadFailed(table: TableKind, cause: ReadError)
    | DuplicateKeys(table: TableKind, violation: KeyViolation)
    | NotYetLoaded(table: TableKind)

  /** The parser of each file and the merge of status history with note information. */
  datatype Sources = Sources(
    parseUserEnrollments: ParseRequest -> ParseAttempt<UserEnrollment>,
    parseNotes: ParseRequest -> ParseAttempt<Note>,
    parseNoteStatusHistory: ParseRequest -> ParseAttempt<NoteStatus>,
    parseRatings: ParseRequest -> ParseAttempt<Rating>,
    mergeNoteInfo: (seq<NoteStatus>, seq<Note>) -> seq<NoteStatus>)

  /** The datatype mappings of the four files and the launch time of the not-misleading answer. */
  datatype Constants = Constants(
    userEnrollmentTypeMapping: Schema,
    noteTypeMapping: Schema,
    noteStatusHistoryTypeMapping: Schema,
    ratingTypeMapping: Schema,
    notMisleadingUILaunchTime: int)

  /** Everything a loader is built from. */
  datatype LoaderConfig = LoaderConfig(
    notesPath: string,
    ratingsPath: string,
    noteStatusHistoryPath: string,
    userEnrollmentPath: string,
    sources: Sources,
    constants: Constants)

  // ---------------------------------------------------------------------------
  // Unified helpfulness
  // ---------------------------------------------------------------------------

  /** `helpfulNum` in half units: 0, 0.5 and 1 are 0, 1 and 2. */
  const NotHelpfulNum: int := 0
  const SomewhatHelpfulNum: int := 1
  const HelpfulNum: int := 2

  /**
    The unified helpfulness of a rating, by priority: a recognised helpfulness level
    decides; failing that, `notHelpful == 1` gives not helpful; failing that,
    `helpful == 1` gives helpful; otherwise there is none.
   */
  function UnifiedHelpfulness(r: Rating): (h: Option<int>)
    ensures h.Some? ==> NotHelpfulNum <= h.value <= HelpfulNum
    ensures h.None? <==>
      && (r.helpfulnessLevel.None? || r.helpfulnessLevel.value.OtherLevel?)
      && r.notHelpful != Some(1)
      && r.helpful != Some(1)
  {
    match r.helpfulnessLevel
    case Some(NotHelpfulValue) => Some(NotHelpfulNum)
    case Some(SomewhatHelpfulValue) => Some(SomewhatHelpfulNum)
    case Some(HelpfulValue) => Some(HelpfulNum)
    case _ =>
      if r.notHelpful == Some(1) then Some(NotHelpfulNum)
      else if r.helpful == Some(1) then Some(HelpfulNum)
      else None
  }

  /** Every rating with its `helpfulNum` set to its unified helpfulness. */
  function WithUnifiedHelpfulness(rows: seq<Rating>): (r: seq<Rating>)
    ensures |r| == |rows|
    ensures forall i :: 0 <= i < |r| ==> r[i].helpfulNum == UnifiedHelpfulness(rows[i])
    ensures forall i :: 0 <= i < |r| ==> r[i].(helpfulNum := rows[i].helpfulNum) == rows[i]
  {
    seq(|rows|, i requires 0 <= i < |rows| => rows[i].(helpfulNum := UnifiedHelpfulness(rows[i])))
  }

  /** One `.loc` assignment: `helpfulNum := value` on the rows satisfying `cond`. */
  function AssignHelpfulNumWhere(rows: seq<Rating>, cond: Rating -> bool, value: Option<int>): seq<Rating> {
    seq(|rows|, i requires 0 <= i < |rows| => if cond(rows[i]) then rows[i].(helpfulNum := value) else rows[i])
  }

  /**
    The six column assignments, applied one after the other so that a later one
    overwrites an earlier one on the rows both select. The result is the unified
    helpfulness of every row: the last matching assignment is the highest priority.
   */
  method PopulateHelpfulNum(rows: seq<Rating>) returns (r: seq<Rating>)
    ensures r == WithUnifiedHelpfulness(rows)
  {
    r := AssignHelpfulNumWhere(rows, (x: Rating) => true, None);
    r := AssignHelpfulNumWhere(r, (x: Rating) => x.helpful == Some(1), Some(HelpfulNum));
    r := AssignHelpfulNumWhere(r, (x: Rating) => x.notHelpful == Some(1), Some(NotHelpfulNum));
    r := AssignHelpfulNumWhere(r, (x: Rating) => x.helpfulnessLevel == Some(NotHelpfulValue), Some(NotHelpfulNum));
    r := AssignHelpfulNumWhere(r, (x: Rating) => x.helpfulnessLevel == Some(SomewhatHelpfulValue), Some(SomewhatHelpfulNum));
    r := AssignHelpfulNumWhere(r, (x: Rating) => x.helpfulnessLevel == Some(HelpfulValue), Some(HelpfulNum));
    assert forall i :: 0 <= i < |r| ==> r[i] == WithUnifiedHelpfulness(rows)[i];
  }

  /** The rows whose `helpfulNum` is present, in order. */
  function DropRatingsWithoutHelpfulNum(rows: seq<Rating>): seq<Rating> {
    if |rows| == 0 then []
    else
      var rest := DropRatingsWithoutHelpfulNum(rows[1..]);
      if rows[0].helpfulNum.Some? then [rows[0]] + rest else rest
  }

  /** The drop keeps every copy of a rating with a `helpfulNum` and no copy of any other. */
  lemma {:induction false} DropRatingsWithoutHelpfulNumMultiplicity(rows: seq<Rating>, x: Rating)
    ensures multiset(DropRatingsWithoutHelpfulNum(rows))[x] == if x.helpfulNum.Some? then multiset(rows)[x] else 0
  {
    if |rows| > 0 {
      assert rows == [rows[0]] + rows[1..];
      DropRatingsWithoutHelpfulNumMultiplicity(rows[1..], x);
    }
  }

  /** The drop returns a sub-table of its input. */
  lemma DropRatingsWithoutHelpfulNumIsSubMultiset(rows: seq<Rating>)
    ensures multiset(DropRatingsWithoutHelpfulNum(rows)) <= multiset(rows)
  {
    forall x { DropRatingsWithoutHelpfulNumMultiplicity(rows, x); }
  }

  /** A recognised level overrides the legacy answers: `helpful == 1` with level not-helpful is not helpful. */
  lemma LevelOverridesLegacyFlags(r: Rating)
    requires r.helpful == Some(1) && r.helpfulnessLevel == Some(NotHelpfulValue)
    ensures UnifiedHelpfulness(r) == Some(NotHelpfulNum)
  {
  }

  // ---------------------------------------------------------------------------
  // Per-table cleaning
  // ---------------------------------------------------------------------------

  /** `astype(str)` on a tweet id: an integer becomes its decimal text, text stays as it is. */
  function TweetIdAsText(t: TweetId): (u: TweetId)
    ensures u.TextTweetId?
    ensures t.TextTweetId? ==> u == t
    ensures t.NumericTweetId? ==> Decimal.ParseInt(u.text) == Some(t.n)
  {
    match t
    case NumericTweetId(n) =>
      Decimal.IntToStringRoundTrip(n);
      TextTweetId(Decimal.IntToString(n))
    case TextTweetId(_) => t
  }

  /** The tweet-id column of every note rendered as text; every other column untouched. */
  function CoerceTweetIds(notes: seq<Note>): (r: seq<Note>)
    ensures |r| == |notes|
    ensures forall i :: 0 <= i < |r| ==> r[i].tweetId.TextTweetId?
    ensures forall i :: 0 <= i < |r| ==> r[i].(tweetId := notes[i].tweetId) == notes[i]
  {
    seq(|notes|, i requires 0 <= i < |notes| => notes[i].(tweetId := TweetIdAsText(notes[i].tweetId)))
  }

  /** Two numeric tweet ids that coerce to the same text were the same id. */
  lemma TweetIdCoercionInjective(a: TweetId, b: TweetId)
    requires a.NumericTweetId? && b.NumericTweetId?
    requires TweetIdAsText(a) == TweetIdAsText(b)
    ensures a == b
  {
    Decimal.IntToStringInjective(a.n, b.n);
  }

  /** The rows of a table as read, or why the read failed. */
  function ReadRows<R>(reader: TsvReader, parse: ParseRequest -> ParseAttempt<R>, kind: TableKind): Result<seq<R>, LoadError> {
    match reader.ReadOutcome(parse)
    case Success(t) => Success(t.rows)
    case Failure(e) => Failure(ReadFailed(kind, e))
  }

  /** `_load_notes` after the read: the duplicate filter, then the tweet-id coercion. */
  function NotesFromRead(rows: seq<Note>): Result<seq<Note>, LoadError> {
    match FilterDuplicateNotes(rows)
    case Success(notes) => Success(CoerceTweetIds(notes))
    case Failure(v) => Failure(DuplicateKeys(NotesTable, v))
  }

  /**
    Loaded notes have one row per noteId and a textual tweet id, and are the
    deduplicated notes read, in order, with only the tweet id changed.
   */
  lemma LoadedNotesAreKeyedAndTextual(rows: seq<Note>)
    ensures NotesFromRead(rows).Success? <==> FilterDuplicateNotes(rows).Success?
    ensures NotesFromRead(rows).Success? ==>
      var notes := NotesFromRead(rows).value;
      var deduped := DropDuplicates(rows);
      && KeysUnique(notes, NoteKey)
      && |notes| == |deduped|
      && (forall i :: 0 <= i < |notes| ==> notes[i].tweetId.TextTweetId?)
      && (forall i :: 0 <= i < |notes| ==> notes[i].(tweetId := deduped[i].tweetId) == deduped[i])
  {
    if FilterDuplicateNotes(rows).Success? {
      var notes := NotesFromRead(rows).value;
      var deduped := DropDuplicates(rows);
      forall i, j | 0 <= i < j < |notes| ensures NoteKey(notes[i]) != NoteKey(notes[j]) {
        assert notes[i].noteId == deduped[i].noteId && notes[j].noteId == deduped[j].noteId;
      }
    }
  }

  /** `_load_notes_status_history` after the read: merged with the loaded notes, which must exist. */
  function NoteStatusHistoryFromRead(
    rows: seq<NoteStatus>,
    notes: Option<seq<Note>>,
    mergeNoteInfo: (seq<NoteStatus>, seq<Note>) -> seq<NoteStatus>): Result<seq<NoteStatus>, LoadError>
  {
    if notes.None? then Failure(NotYetLoaded(NotesTable)) else Success(mergeNoteInfo(rows, notes.value))
  }

  /** The ratings after deduplication and the helpfulness derivation, before any status filter. */
  function RatedRatings(deduped: seq<Rating>): seq<Rating> {
    DropRatingsWithoutHelpfulNum(WithUnifiedHelpfulness(deduped))
  }

  /**
    `_load_ratings` after the read: the duplicate filter first, then the unified
    helpfulness, then the drop of rows without one, then (when asked) the filter on
    the status of each rating's note, which needs the status history to be loaded.
   */
  function RatingsFromRead(
    rows: seq<Rating>,
    noteStatusHistory: Option<seq<NoteStatus>>,
    shouldFilterNotMisleadingNotes: bool,
    shouldLog: bool,
    notMisleadingUILaunchTime: int): Result<seq<Rating>, LoadError>
  {
    match FilterDuplicateRatings(rows)
    case Failure(v) => Failure(DuplicateKeys(RatingsTable, v))
    case Success(deduped) =>
      var rated := RatedRatings(deduped);
      if !shouldFilterNotMisleadingNotes then Success(rated)
      else if noteStatusHistory.None? then Failure(NotYetLoaded(NoteStatusHistoryTable))
      else Success(FilterRatingsOfMisleadingNotes(rated, noteStatusHistory.value, notMisleadingUILaunchTime, shouldLog).ratings)
  }

  /**
    A rated rating has its unified helpfulness and is a rating of `rows` with only
    `helpfulNum` set, when the deduplicated ratings are drawn from `rows`.
   */
  lemma RatedRatingIsDerived(rows: seq<Rating>, deduped: seq<Rating>, x: Rating)
    requires multiset(deduped) <= multiset(rows)
    requires x in RatedRatings(deduped)
    ensures x.helpfulNum.Some? && x.helpfulNum == UnifiedHelpfulness(x)
    ensures exists j :: 0 <= j < |rows| && x == rows[j].(helpfulNum := UnifiedHelpfulness(rows[j]))
  {
    var derived := WithUnifiedHelpfulness(deduped);
    assert x in multiset(RatedRatings(deduped));
    DropRatingsWithoutHelpfulNumMultiplicity(derived, x);
    assert x in multiset(derived);
    var k :| 0 <= k < |derived| && derived[k] == x;
    assert deduped[k] in multiset(deduped);
    var j :| 0 <= j < |rows| && rows[j] == deduped[k];
  }

  /** The loaded ratings are rated ratings, whether or not the status filter ran. */
  lemma LoadedRatingsComeFromRated(
    rows: seq<Rating>, nsh: Option<seq<NoteStatus>>, shouldFilter: bool, shouldLog: bool, launch: int)
    requires RatingsFromRead(rows, nsh, shouldFilter, shouldLog, launch).Success?
    ensures var out := RatingsFromRead(rows, nsh, shouldFilter, shouldLog, launch).value;
      forall i :: 0 <= i < |out| ==> out[i] in RatedRatings(FilterDuplicateRatings(rows).value)
  {
  }

  /**
    Every loaded rating carries its unified helpfulness, which is 0, 0.5 or 1, and is
    a rating as read with only `helpfulNum` set.
   */
  lemma LoadedRatingsAreRated(
    rows: seq<Rating>, nsh: Option<seq<NoteStatus>>, shouldFilter: bool, shouldLog: bool, launch: int)
    requires RatingsFromRead(rows, nsh, shouldFilter, shouldLog, launch).Success?
    ensures var out := RatingsFromRead(rows, nsh, shouldFilter, shouldLog, launch).value;
      forall i :: 0 <= i < |out| ==>
        && out[i].helpfulNum.Some?
        && NotHelpfulNum <= out[i].helpfulNum.value <= HelpfulNum
        && out[i].helpfulNum == UnifiedHelpfulness(out[i])
        && exists j :: 0 <= j < |rows| && out[i] == rows[j].(helpfulNum := UnifiedHelpfulness(rows[j]))
  {
    var deduped := FilterDuplicateRatings(rows).value;
    var out := RatingsFromRead(rows, nsh, shouldFilter, shouldLog, launch).value;
    LoadedRatingsComeFromRated(rows, nsh, shouldFilter, shouldLog, launch);
    forall i | 0 <= i < |out|
      ensures out[i].helpfulNum.Some? && out[i].helpfulNum == UnifiedHelpfulness(out[i])
      ensures exists j :: 0 <= j < |rows| && out[i] == rows[j].(helpfulNum := UnifiedHelpfulness(rows[j]))
    {
      RatedRatingIsDerived(rows, deduped, out[i]);
    }
  }

  /** Setting `helpfulNum` leaves the rating keys as they were. */
  lemma WithUnifiedHelpfulnessKeepsKeys(rows: seq<Rating>)
    requires KeysUnique(rows, RatingKey)
    ensures KeysUnique(WithUnifiedHelpfulness(rows), RatingKey)
  {
    var d := WithUnifiedHelpfulness(rows);
    forall i, j | 0 <= i < j < |d| ensures RatingKey(d[i]) != RatingKey(d[j]) {
      assert RatingKey(d[i]) == RatingKey(rows[i]) && RatingKey(d[j]) == RatingKey(rows[j]);
    }
  }

  /**
    The loaded ratings have one row per (raterParticipantId, noteId) whenever the status
    filter is off or the status history has one row per note.
   */
  lemma LoadedRatingsKeysUnique(
    rows: seq<Rating>, nsh: Option<seq<NoteStatus>>, shouldFilter: bool, shouldLog: bool, launch: int)
    requires RatingsFromRead(rows, nsh, shouldFilter, shouldLog, launch).Success?
    requires shouldFilter ==> nsh.Some? && KeysUnique(nsh.value, StatusKey)
    ensures KeysUnique(RatingsFromRead(rows, nsh, shouldFilter, shouldLog, launch).value, RatingKey)
  {
    var deduped := FilterDuplicateRatings(rows).value;
    RatedRatingsKeysUnique(deduped);
    if shouldFilter {
      var rated := RatedRatings(deduped);
      FilterByStatusKeysUnique(rated, nsh.value, launch);
      assert RatingsFromRead(rows, nsh, shouldFilter, shouldLog, launch).value
        == FilterByStatus(rated, nsh.value, launch);
    }
  }

  /** Deriving and dropping keep rating keys unique. */
  lemma RatedRatingsKeysUnique(deduped: seq<Rating>)
    requires KeysUnique(deduped, RatingKey)
    ensures KeysUnique(RatedRatings(deduped), RatingKey)
  {
    var derived := WithUnifiedHelpfulness(deduped);
    WithUnifiedHelpfulnessKeepsKeys(deduped);
    DropRatingsWithoutHelpfulNumIsSubMultiset(derived);
    KeysUniqueOfSubMultiset(derived, RatedRatings(deduped), RatingKey);
  }

  /** The lookup filter on status keeps rating keys unique. */
  lemma FilterByStatusKeysUnique(rated: seq<Rating>, nsh: seq<NoteStatus>, launch: int)
    requires KeysUnique(rated, RatingKey)
    ensures KeysUnique(FilterByStatus(rated, nsh, launch), RatingKey)
  {
    var kept := FilterByStatus(rated, nsh, launch);
    assert multiset(kept) <= multiset(rated) by {
      forall x { FilterByStatusMultiplicity(rated, nsh, launch, x); }
    }
    KeysUniqueOfSubMultiset(rated, kept, RatingKey);
  }

  /** The status filter is applied exactly when asked for, to the rated ratings and the loaded status history. */
  lemma StatusFilterAppliedIffRequested(
    rows: seq<Rating>, nsh: seq<NoteStatus>, shouldFilter: bool, shouldLog: bool, launch: int)
    requires FilterDuplicateRatings(rows).Success?
    ensures var rated := RatedRatings(FilterDuplicateRatings(rows).value);
      RatingsFromRead(rows, Some(nsh), shouldFilter, shouldLog, launch)
        == Success(if shouldFilter then FilterRatingsOfMisleadingNotes(rated, nsh, launch, shouldLog).ratings else rated)
  {
  }

  /**
    Deduplication comes before the helpfulness derivation: two ratings by one rater on
    one note, one of them with no answer at all, fail the key check, although the
    unanswered one would have been dropped had the derivation come first.
   */
  lemma DeduplicationPrecedesDerivation(answered: Rating, unanswered: Rating)
    requires answered.helpful == Some(1)
    requires unanswered.helpful.None? && unanswered.notHelpful.None? && unanswered.helpfulnessLevel.None?
    requires RatingKey(answered) == RatingKey(unanswered)
    ensures RatingsFromRead([answered, unanswered], None, false, false, 0).Failure?
    ensures FilterDuplicateRatings(RatedRatings([answered, unanswered])).Success?
  {
    SharedKeyFailsDuplicateFilter(answered, unanswered);
    var rated := RatedRatings([answered, unanswered]);
    UnansweredDropped(answered, unanswered);
    DropDuplicatesOfDistinct(rated);
  }

  /** Two distinct ratings with one key fail the duplicate filter. */
  lemma SharedKeyFailsDuplicateFilter(a: Rating, b: Rating)
    requires a != b && RatingKey(a) == RatingKey(b)
    ensures FilterDuplicateRatings([a, b]).Failure?
  {
    DropDuplicatesOfDistinct([a, b]);
    assert !KeysUnique([a, b], RatingKey) by {
      assert RatingKey([a, b][0]) == RatingKey([a, b][1]);
    }
  }

  /** Deriving first drops the unanswered rating and leaves a single row. */
  lemma UnansweredDropped(answered: Rating, unanswered: Rating)
    requires answered.helpful == Some(1)
    requires unanswered.helpful.None? && unanswered.notHelpful.None? && unanswered.helpfulnessLevel.None?
    ensures |RatedRatings([answered, unanswered])| == 1
  {
    var derived := WithUnifiedHelpfulness([answered, unanswered]);
    assert derived[0].helpfulNum.Some?;
    assert derived[1].helpfulNum.None?;
    assert derived[1..][1..] == [];
    assert DropRatingsWithoutHelpfulNum(derived[1..]) == [];
    assert DropRatingsWithoutHelpfulNum(derived) == [derived[0]];
  }

  // ---------------------------------------------------------------------------
  // The loader
  // ---------------------------------------------------------------------------

  /** The four tables of a loader; `None` for a table not loaded yet. */
  datatype LoaderState = LoaderState(
    userEnrollments: Option<seq<UserEnrollment>>,
    notes: Option<seq<Note>>,
    noteStatusHistory: Option<seq<NoteStatus>>,
    ratings: Option<seq<Rating>>)

  /** The loader state and outcome after one load step. */
  datatype Step = Step(state: LoaderState, outcome: Outcome<LoadError>)

  function UserEnrollmentsStep(config: LoaderConfig, s: LoaderState): Step {
    var reader := TsvReader(config.userEnrollmentPath, config.constants.userEnrollmentTypeMapping);
    match ReadRows(reader, config.sources.parseUserEnrollments, UserEnrollmentsTable)
    case Success(rows) => Step(s.(userEnrollments := Some(rows)), Pass)
    case Failure(e) => Step(s, Fail(e))
  }

  function NotesStep(config: LoaderConfig, s: LoaderState): Step {
    var reader := TsvReader(config.notesPath, config.constants.noteTypeMapping);
    match ReadRows(reader, config.sources.parseNotes, NotesTable)
    case Failure(e) => Step(s, Fail(e))
    case Success(rows) =>
      match NotesFromRead(rows)
      case Success(notes) => Step(s.(notes := Some(notes)), Pass)
      case Failure(e) => Step(s, Fail(e))
  }

  function NoteStatusHistoryStep(config: LoaderConfig, s: LoaderState): Step {
    var reader := TsvReader(config.noteStatusHistoryPath, config.constants.noteStatusHistoryTypeMapping);
    match ReadRows(reader, config.sources.parseNoteStatusHistory, NoteStatusHistoryTable)
    case Failure(e) => Step(s, Fail(e))
    case Success(rows) =>
      match NoteStatusHistoryFromRead(rows, s.notes, config.sources.mergeNoteInfo)
      case Success(nsh) => Step(s.(noteStatusHistory := Some(nsh)), Pass)
      case Failure(e) => Step(s, Fail(e))
  }

  function RatingsStep(config: LoaderConfig, s: LoaderState, shouldFilterNotMisleadingNotes: bool, shouldLog: bool): Step {
    var reader := TsvReader(config.ratingsPath, config.constants.ratingTypeMapping);
    match ReadRows(reader, config.sources.parseRatings, RatingsTable)
    case Failure(e) => Step(s, Fail(e))
    case Success(rows) =>
      match RatingsFromRead(rows, s.noteStatusHistory, shouldFilterNotMisleadingNotes, shouldLog,
                            config.constants.notMisleadingUILaunchTime)
      case Success(ratings) => Step(s.(ratings := Some(ratings)), Pass)
      case Failure(e) => Step(s, Fail(e))
  }

  /** `load`: the four steps in order, stopping at the first that fails. */
  function LoadedState(config: LoaderConfig, s: LoaderState, shouldFilterNotMisleadingNotes: bool, shouldLog: bool): Step {
    var s1 := UserEnrollmentsStep(config, s);
    if s1.outcome.Fail? then s1 else
    var s2 := NotesStep(config, s1.state);
    if s2.outcome.Fail? then s2 else
    var s3 := NoteStatusHistoryStep(config, s2.state);
    if s3.outcome.Fail? then s3 else
    RatingsStep(config, s3.state, shouldFilterNotMisleadingNotes, shouldLog)
  }

  /** A table's place in the load order. */
  function LoadPosition(k: TableKind): nat {
    match k
    case UserEnrollmentsTable => 0
    case NotesTable => 1
    case NoteStatusHistoryTable => 2
    case RatingsTable => 3
  }

  predicate IsLoaded(s: LoaderState, k: TableKind) {
    match k
    case UserEnrollmentsTable => s.userEnrollments.Some?
    case NotesTable => s.notes.Some?
    case NoteStatusHistoryTable => s.noteStatusHistory.Some?
    case RatingsTable => s.ratings.Some?
  }

  predicate SameTable(s: LoaderState, t: LoaderState, k: TableKind) {
    match k
    case UserEnrollmentsTable => s.userEnrollments == t.userEnrollments
    case NotesTable => s.notes == t.notes
    case NoteStatusHistoryTable => s.noteStatusHistory == t.noteStatusHistory
    case RatingsTable => s.ratings == t.ratings
  }

  /**
    What one step does to the loader: on success it sets its own table and nothing
    else; on failure it changes nothing and names its own table, or the table it
    needs when that one is missing.
   */
  predicate StepFrame(s: LoaderState, r: Step, k: TableKind, needs: Option<TableKind>) {
    && (r.outcome.Pass? ==> IsLoaded(r.state, k) && forall k' :: k' != k ==> SameTable(s, r.state, k'))
    && (r.outcome.Fail? ==>
          && r.state == s
          && (r.outcome.error.NotYetLoaded? ==> needs.Some? && r.outcome.error.table == needs.value && !IsLoaded(s, needs.value))
          && (!r.outcome.error.NotYetLoaded? ==> r.outcome.error.table == k))
  }

  lemma UserEnrollmentsStepFrame(config: LoaderConfig, s: LoaderState)
    ensures StepFrame(s, UserEnrollmentsStep(config, s), UserEnrollmentsTable, None)
  {
  }

  lemma NotesStepFrame(config: LoaderConfig, s: LoaderState)
    ensures StepFrame(s, NotesStep(config, s), NotesTable, None)
  {
  }

  lemma NoteStatusHistoryStepFrame(config: LoaderConfig, s: LoaderState)
    ensures StepFrame(s, NoteStatusHistoryStep(config, s), NoteStatusHistoryTable, Some(NotesTable))
  {
  }

  lemma RatingsStepFrame(config: LoaderConfig, s: LoaderState, shouldFilter: bool, shouldLog: bool)
    ensures StepFrame(s, RatingsStep(config, s, shouldFilter, shouldLog), RatingsTable, Some(NoteStatusHistoryTable))
  {
    var read := ReadRows(TsvReader(config.ratingsPath, config.constants.ratingTypeMapping),
                         config.sources.parseRatings, RatingsTable);
    if read.Success? {
      RatingsFromReadErrors(read.value, s.noteStatusHistory, shouldFilter, shouldLog,
                            config.constants.notMisleadingUILaunchTime);
    }
  }

  /** Loading read ratings fails for a missing status history only when it is missing, and otherwise names the ratings. */
  lemma RatingsFromReadErrors(
    rows: seq<Rating>, nsh: Option<seq<NoteStatus>>, shouldFilter: bool, shouldLog: bool, launch: int)
    ensures var r := RatingsFromRead(rows, nsh, shouldFilter, shouldLog, launch);
      r.Failure? ==>
        && (r.error.NotYetLoaded? ==> nsh.None? && shouldFilter && r.error.table == NoteStatusHistoryTable)
        && (!r.error.NotYetLoaded? ==> r.error.DuplicateKeys? && r.error.table == RatingsTable)
  {
  }

  /** The outcome of four steps run in order, stopping at the first that fails. */
  function Chain(s1: Step, s2: Step, s3: Step, s4: Step): Step {
    if s1.outcome.Fail? then s1
    else if s2.outcome.Fail? then s2
    else if s3.outcome.Fail? then s3
    else s4
  }

  /**
    A load that ends in `r` from `s` stopped at its first failure: on success every
    table is set; on failure the error is not a missing dependency, the tables before
    the failing one are set, and the failing one and those after it are as they were.
   */
  predicate StoppedAtFirstFailure(s: LoaderState, r: Step) {
    && (r.outcome.Pass? ==> forall k :: IsLoaded(r.state, k))
    && (r.outcome.Fail? ==>
          && !r.outcome.error.NotYetLoaded?
          && (forall k :: LoadPosition(k) < LoadPosition(r.outcome.error.table) ==> IsLoaded(r.state, k))
          && (forall k :: LoadPosition(k) >= LoadPosition(r.outcome.error.table) ==> SameTable(s, r.state, k)))
  }

  /** Four steps with the frames of the load steps, chained, stop at the first failure. */
  lemma ChainStopsAtFirstFailure(s: LoaderState, s1: Step, s2: Step, s3: Step, s4: Step)
    requires StepFrame(s, s1, UserEnrollmentsTable, None)
    requires StepFrame(s1.state, s2, NotesTable, None)
    requires StepFrame(s2.state, s3, NoteStatusHistoryTable, Some(NotesTable))
    requires StepFrame(s3.state, s4, RatingsTable, Some(NoteStatusHistoryTable))
    ensures StoppedAtFirstFailure(s, Chain(s1, s2, s3, s4))
  {
    if s1.outcome.Pass? && s2.outcome.Pass? && s3.outcome.Pass? {
      forall k | LoadPosition(k) < 3 ensures IsLoaded(s3.state, k) {
        match k
        case UserEnrollmentsTable =>
          assert SameTable(s1.state, s2.state, k) && SameTable(s2.state, s3.state, k);
        case NotesTable =>
          assert SameTable(s2.state, s3.state, k);
        case NoteStatusHistoryTable =>
      }
      if s4.outcome.Pass? {
        forall k ensures IsLoaded(s4.state, k) {
          if k != RatingsTable {
            assert LoadPosition(k) < 3 && SameTable(s3.state, s4.state, k);
          }
        }
      } else {
        var k := RatingsTable;
        assert SameTable(s, s1.state, k) && SameTable(s1.state, s2.state, k) && SameTable(s2.state, s3.state, k);
      }
    } else if s1.outcome.Pass? && s2.outcome.Pass? {
      forall k | LoadPosition(k) >= 2 ensures SameTable(s, s3.state, k) {
        assert SameTable(s, s1.state, k) && SameTable(s1.state, s2.state, k);
      }
      forall k | LoadPosition(k) < 2 ensures IsLoaded(s3.state, k) {
        if k == UserEnrollmentsTable {
          assert SameTable(s1.state, s2.state, k);
        }
      }
    } else if s1.outcome.Pass? {
      forall k | LoadPosition(k) >= 1 ensures SameTable(s, s2.state, k) {
        assert SameTable(s, s1.state, k);
      }
    }
  }

  /**
    The load order: a successful load sets all four tables; a failed one names the
    table whose step failed, every earlier table is set and it and every later table
    are as they were. A missing dependency is never the reason, since every table is
    loaded after the ones it needs.
   */
  lemma LoadStopsAtFirstFailure(config: LoaderConfig, s: LoaderState, shouldFilter: bool, shouldLog: bool)
    ensures StoppedAtFirstFailure(s, LoadedState(config, s, shouldFilter, shouldLog))
  {
    var s1 := UserEnrollmentsStep(config, s);
    var s2 := NotesStep(config, s1.state);
    var s3 := NoteStatusHistoryStep(config, s2.state);
    var s4 := RatingsStep(config, s3.state, shouldFilter, shouldLog);
    UserEnrollmentsStepFrame(config, s);
    NotesStepFrame(config, s1.state);
    NoteStatusHistoryStepFrame(config, s2.state);
    RatingsStepFrame(config, s3.state, shouldFilter, shouldLog);
    ChainStopsAtFirstFailure(s, s1, s2, s3, s4);
    assert LoadedState(config, s, shouldFilter, shouldLog) == Chain(s1, s2, s3, s4);
  }

  /**
    The dependencies are met by the same load: the status history is merged with the
    notes this load has just set, and the ratings are filtered with the status history
    it has just set.
   */
  lemma LoadUsesFreshDependencies(config: LoaderConfig, s: LoaderState, shouldFilter: bool, shouldLog: bool)
    requires LoadedState(config, s, shouldFilter, shouldLog).outcome.Pass?
    ensures var t := LoadedState(config, s, shouldFilter, shouldLog).state;
      var nshRead := ReadRows(TsvReader(config.noteStatusHistoryPath, config.constants.noteStatusHistoryTypeMapping),
                              config.sources.parseNoteStatusHistory, NoteStatusHistoryTable);
      var ratingsRead := ReadRows(TsvReader(config.ratingsPath, config.constants.ratingTypeMapping),
                                  config.sources.parseRatings, RatingsTable);
      && nshRead.Success? && ratingsRead.Success?
      && t.noteStatusHistory == Some(config.sources.mergeNoteInfo(nshRead.value, t.notes.value))
      && t.ratings == Some(RatingsFromRead(ratingsRead.value, t.noteStatusHistory, shouldFilter, shouldLog,
                                           config.constants.notMisleadingUILaunchTime).value)
  {
  }

  /** A loader of the four tables from their paths. */
  class DataLoader {
    const notesPath: string
    const ratingsPath: string
    const noteStatusHistoryPath: string
    const userEnrollmentPath: string
    const sources: Sources
    const constants: Constants

    var userEnrollments: Option<seq<UserEnrollment>>
    var notes: Option<seq<Note>>
    var notesStatusHistory: Option<seq<NoteStatus>>
    var ratings: Option<seq<Rating>>

    function Config(): LoaderConfig {
      LoaderConfig(notesPath, ratingsPath, noteStatusHistoryPath, userEnrollmentPath, sources, constants)
    }

    function State(): LoaderState
      reads this
    {
      LoaderState(userEnrollments, notes, notesStatusHistory, ratings)
    }

    /** Records the paths; no table is loaded yet. */
    constructor(
      notesPath: string,
      ratingsPath: string,
      noteStatusHistoryPath: string,
      userEnrollmentPath: string,
      sources: Sources,
      constants: Constants)
      ensures Config() == LoaderConfig(notesPath, ratingsPath, noteStatusHistoryPath, userEnrollmentPath, sources, constants)
      ensures State() == LoaderState(None, None, None, None)
    {
      this.notesPath := notesPath;
      this.ratingsPath := ratingsPath;
      this.noteStatusHistoryPath := noteStatusHistoryPath;
      this.userEnrollmentPath := userEnrollmentPath;
      this.sources := sources;
      this.constants := constants;
      userEnrollments := None;
      notes := None;
      notesStatusHistory := None;
      ratings := None;
    }

    /** `load`: user enrollments, notes, status history, then ratings; the first failure stops it. */
    method Load(shouldFilterNotMisleadingNotes: bool, shouldLog: bool) returns (o: Outcome<LoadError>)
      modifies this
      ensures Step(State(), o) == LoadedState(Config(), old(State()), shouldFilterNotMisleadingNotes, shouldLog)
    {
      o := LoadUserEnrollments();
      if o.Fail? { return; }
      o := LoadNotes();
      if o.Fail? { return; }
      o := LoadNotesStatusHistory();
      if o.Fail? { return; }
      o := LoadRatings(shouldFilterNotMisleadingNotes, shouldLog);
    }

    method LoadUserEnrollments() returns (o: Outcome<LoadError>)
      modifies this
      ensures Step(State(), o) == UserEnrollmentsStep(Config(), old(State()))
    {
      var read := TsvReader(userEnrollmentPath, constants.userEnrollmentTypeMapping).Read(sources.parseUserEnrollments);
      if read.Failure? {
        return Fail(ReadFailed(UserEnrollmentsTable, read.error));
      }
      userEnrollments := Some(read.value.rows);
      o := Pass;
    }

    /** `_load_notes`: read, drop duplicates (failing on a repeated noteId), render tweet ids as text. */
    method LoadNotes() returns (o: Outcome<LoadError>)
      modifies this
      ensures Step(State(), o) == NotesStep(Config(), old(State()))
    {
      var read := TsvReader(notesPath, constants.noteTypeMapping).Read(sources.parseNotes);
      if read.Failure? {
        return Fail(ReadFailed(NotesTable, read.error));
      }
      var filtered := FilterDuplicateNotes(read.value.rows);
      if filtered.Failure? {
        return Fail(DuplicateKeys(NotesTable, filtered.error));
      }
      notes := Some(CoerceTweetIds(filtered.value));
      o := Pass;
    }

    /** `_load_notes_status_history`: read, then merge with the loaded notes. */
    method LoadNotesStatusHistory() returns (o: Outcome<LoadError>)
      modifies this
      ensures Step(State(), o) == NoteStatusHistoryStep(Config(), old(State()))
    {
      var read := TsvReader(noteStatusHistoryPath, constants.noteStatusHistoryTypeMapping).Read(sources.parseNoteStatusHistory);
      if read.Failure? {
        return Fail(ReadFailed(NoteStatusHistoryTable, read.error));
      }
      if notes.None? {
        return Fail(NotYetLoaded(NotesTable));
      }
      notesStatusHistory := Some(sources.mergeNoteInfo(read.value.rows, notes.value));
      o := Pass;
    }

    /**
      `_load_ratings`: read, drop duplicates (failing on a repeated rater and note),
      set the unified helpfulness, drop rows without one, and filter by note status
      when asked.
     */
    method LoadRatings(shouldFilterNotMisleadingNotes: bool, shouldLog: bool) returns (o: Outcome<LoadError>)
      modifies this
      ensures Step(State(), o) == RatingsStep(Config(), old(State()), shouldFilterNotMisleadingNotes, shouldLog)
    {
      var read := TsvReader(ratingsPath, constants.ratingTypeMapping).Read(sources.parseRatings);
      if read.Failure? {
        return Fail(ReadFailed(RatingsTable, read.error));
      }
      var filtered := FilterDuplicateRatings(read.value.rows);
      if filtered.Failure? {
        return Fail(DuplicateKeys(RatingsTable, filtered.error));
      }
      var rows := PopulateHelpfulNum(filtered.value);
      rows := DropRatingsWithoutHelpfulNum(rows);
      if shouldFilterNotMisleadingNotes {
        if notesStatusHistory.None? {
          return Fail(NotYetLoaded(NoteStatusHistoryTable));
        }
        rows := FilterRatingsOfMisleadingNotes(rows, notesStatusHistory.value,
                                               constants.notMisleadingUILaunchTime, shouldLog).ratings;
      }
      ratings := Some(rows);
      o := Pass;
    }
  }
}
