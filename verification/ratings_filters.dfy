/**
  The filters applied to the ratings table: the duplicate/primary-key filter, the
  filter on the status of the rated note, and the three-pass minimum-count filter.
  Every filter returns a new table; none changes its input.
 */
module RatingsFilters {
  import opened Results
  import opened Tables
  import opened Records

  // ---------------------------------------------------------------------------
  // Duplicate ratings
  // ---------------------------------------------------------------------------

  /**
    Drops exact duplicate ratings (first occurrence kept), then fails unless each
    (raterParticipantId, noteId) pair occurs once; the failure reports the number of
    distinct pairs and the number of ratings. No rating is ever chosen by key.
   */
  function FilterDuplicateRatings(ratings: seq<Rating>): (r: Result<seq<Rating>, KeyViolation>)
    ensures r.Success? <==> KeysUnique(DropDuplicates(ratings), RatingKey)
    ensures r.Success? ==>
      && r.value == DropDuplicates(ratings)
      && NoDuplicates(r.value)
      && (forall i :: 0 <= i < |ratings| ==> ratings[i] in r.value)
      && multiset(r.value) <= multiset(ratings)
      && |KeySet(r.value, RatingKey)| == |r.value|
    ensures r.Failure? ==>
      && r.error == KeyViolation(|KeySet(DropDuplicates(ratings), RatingKey)|, |DropDuplicates(ratings)|)
      && r.error.uniqueKeys < r.error.rows
  {
    var r := DropDuplicatesRequiringUniqueKey(ratings, RatingKey);
    KeyCountIsRowCountIffUnique(DropDuplicates(ratings), RatingKey);
    r
  }

  // ---------------------------------------------------------------------------
  // Ratings of misleading notes
  // ---------------------------------------------------------------------------

  /**
    A rating joined to the `createdAtMillis` (renamed `createdAtMillis_nsh`) and
    `classification` of a status-history row; both are missing when the note has none.
   */
  datatype JoinedRating = JoinedRating(
    rating: Rating,
    createdAtMillisNsh: Option<int>,
    classification: Option<Classification>)

  /** The status-history rows of note `noteId`, in table order. */
  function StatusRowsFor(nsh: seq<NoteStatus>, noteId: int): (m: seq<NoteStatus>)
    ensures forall i :: 0 <= i < |m| ==> m[i] in nsh && m[i].noteId == noteId
    ensures |m| == 0 <==> forall i :: 0 <= i < |nsh| ==> nsh[i].noteId != noteId
  {
    if |nsh| == 0 then []
    else (if nsh[0].noteId == noteId then [nsh[0]] else []) + StatusRowsFor(nsh[1..], noteId)
  }

  /** One rating joined to its matching status rows: one output row per match, or one unmatched row. */
  function JoinOne(r: Rating, matches: seq<NoteStatus>): (j: seq<JoinedRating>)
    ensures |j| == if |matches| == 0 then 1 else |matches|
    ensures forall i :: 0 <= i < |j| ==> j[i].rating == r
    ensures |matches| == 0 ==> j[0].createdAtMillisNsh.None? && j[0].classification.None?
    ensures forall i :: 0 <= i < |matches| ==>
      j[i].createdAtMillisNsh == matches[i].createdAtMillis && j[i].classification == matches[i].classification
  {
    if |matches| == 0 then [JoinedRating(r, None, None)]
    else
      seq(|matches|, i requires 0 <= i < |matches| =>
        JoinedRating(r, matches[i].createdAtMillis, matches[i].classification))
  }

  /** `ratings.merge(nsh[[noteId, createdAtMillis, classification]], on=noteId, how="left")`. */
  function LeftJoinStatus(ratings: seq<Rating>, nsh: seq<NoteStatus>): (j: seq<JoinedRating>)
    ensures |j| >= |ratings|
    ensures forall i :: 0 <= i < |j| ==> j[i].rating in ratings
  {
    if |ratings| == 0 then []
    else JoinOne(ratings[0], StatusRowsFor(nsh, ratings[0].noteId)) + LeftJoinStatus(ratings[1..], nsh)
  }

  // The per-row flags. A comparison with a missing timestamp is false.

  predicate DeletedNote(j: JoinedRating) {
    j.classification.None?
  }

  predicate NotDeletedMisleading(j: JoinedRating) {
    !DeletedNote(j) && j.classification == Some(Misleading)
  }

  predicate DeletedButInNsh(j: JoinedRating) {
    DeletedNote(j) && j.createdAtMillisNsh.Some?
  }

  predicate DeletedNotInNsh(j: JoinedRating) {
    DeletedNote(j) && j.createdAtMillisNsh.None?
  }

  predicate NotDeletedNotMisleadingOldUI(j: JoinedRating, notMisleadingUILaunchTime: int) {
    && j.classification == Some(NotMisleading)
    && j.createdAtMillisNsh.Some?
    && j.createdAtMillisNsh.value <= notMisleadingUILaunchTime
  }

  predicate NotDeletedNotMisleadingNewUI(j: JoinedRating, notMisleadingUILaunchTime: int) {
    && j.classification == Some(NotMisleading)
    && j.createdAtMillisNsh.Some?
    && j.createdAtMillisNsh.value > notMisleadingUILaunchTime
  }

  /** The mask the filter applies to the joined table. */
  predicate Retained(j: JoinedRating, notMisleadingUILaunchTime: int) {
    || NotDeletedMisleading(j)
    || DeletedButInNsh(j)
    || NotDeletedNotMisleadingNewUI(j, notMisleadingUILaunchTime)
  }

  /** Applies the mask and drops the join's helper columns: what is left of each row is the rating. */
  function RetainedRatings(joined: seq<JoinedRating>, notMisleadingUILaunchTime: int): (r: seq<Rating>)
    ensures |r| <= |joined|
    ensures forall i :: 0 <= i < |r| ==> exists k :: 0 <= k < |joined| && joined[k].rating == r[i]
  {
    if |joined| == 0 then []
    else
      var rest := RetainedRatings(joined[1..], notMisleadingUILaunchTime);
      if Retained(joined[0], notMisleadingUILaunchTime) then [joined[0].rating] + rest else rest
  }

  lemma {:induction false} RetainedRatingsAppend(a: seq<JoinedRating>, b: seq<JoinedRating>, launch: int)
    ensures RetainedRatings(a + b, launch) == RetainedRatings(a, launch) + RetainedRatings(b, launch)
  {
    if |a| == 0 {
      assert a + b == b;
    } else {
      assert (a + b)[0] == a[0];
      assert (a + b)[1..] == a[1..] + b;
      RetainedRatingsAppend(a[1..], b, launch);
    }
  }

  /** The status rows of a note are every copy of each of its rows in the history, and nothing else. */
  lemma {:induction false} StatusRowsForMultiplicity(nsh: seq<NoteStatus>, noteId: int, s: NoteStatus)
    ensures multiset(StatusRowsFor(nsh, noteId))[s] == if s.noteId == noteId then multiset(nsh)[s] else 0
  {
    if |nsh| > 0 {
      assert nsh == [nsh[0]] + nsh[1..];
      StatusRowsForMultiplicity(nsh[1..], noteId, s);
    }
  }

  /** The number of joined rows that carry rating `x`. */
  function JoinedCopies(joined: seq<JoinedRating>, x: Rating): nat {
    if |joined| == 0 then 0
    else (if joined[0].rating == x then 1 else 0) + JoinedCopies(joined[1..], x)
  }

  lemma {:induction false} JoinedCopiesAppend(a: seq<JoinedRating>, b: seq<JoinedRating>, x: Rating)
    ensures JoinedCopies(a + b, x) == JoinedCopies(a, x) + JoinedCopies(b, x)
  {
    if |a| == 0 {
      assert a + b == b;
    } else {
      assert (a + b)[1..] == a[1..] + b;
      JoinedCopiesAppend(a[1..], b, x);
    }
  }

  lemma {:induction false} JoinedCopiesOfOneRating(joined: seq<JoinedRating>, r: Rating, x: Rating)
    requires forall i :: 0 <= i < |joined| ==> joined[i].rating == r
    ensures JoinedCopies(joined, x) == if r == x then |joined| else 0
  {
    if |joined| > 0 {
      JoinedCopiesOfOneRating(joined[1..], r, x);
    }
  }

  /** How many rows a rating of note `noteId` becomes in the left join: one per status row, and at least one. */
  function JoinWidth(nsh: seq<NoteStatus>, noteId: int): nat {
    var m := StatusRowsFor(nsh, noteId);
    if |m| == 0 then 1 else |m|
  }

  /**
    The left join holds each copy of a rating once per status row of its note, or
    once when the note has none; so every rating of the input appears in it.
   */
  lemma {:induction false} LeftJoinCopies(ratings: seq<Rating>, nsh: seq<NoteStatus>, x: Rating)
    ensures JoinedCopies(LeftJoinStatus(ratings, nsh), x) == multiset(ratings)[x] * JoinWidth(nsh, x.noteId)
    ensures x in ratings ==> JoinedCopies(LeftJoinStatus(ratings, nsh), x) >= 1
  {
    var w := JoinWidth(nsh, x.noteId);
    if |ratings| > 0 {
      var r := ratings[0];
      var first := JoinOne(r, StatusRowsFor(nsh, r.noteId));
      var rest := LeftJoinStatus(ratings[1..], nsh);
      assert LeftJoinStatus(ratings, nsh) == first + rest;
      JoinedCopiesAppend(first, rest, x);
      JoinedCopiesOfOneRating(first, r, x);
      LeftJoinCopies(ratings[1..], nsh, x);
      FirstRowCount(ratings, x);
      if r == x {
        assert JoinedCopies(first, x) == w;
        DistributeCount(1, multiset(ratings[1..])[x], w);
      } else {
        assert JoinedCopies(first, x) == 0;
      }
    }
    if x in ratings {
      PositiveProduct(multiset(ratings)[x], w);
    }
  }

  /** A table's count of `x` is its first row's share plus the rest's count. */
  lemma FirstRowCount<T>(s: seq<T>, x: T)
    requires |s| > 0
    ensures multiset(s)[x] == (if s[0] == x then 1 else 0) + multiset(s[1..])[x]
  {
    assert s == [s[0]] + s[1..];
  }

  lemma DistributeCount(a: nat, b: nat, w: nat)
    ensures (a + b) * w == a * w + b * w
  {
  }

  lemma PositiveProduct(a: nat, b: nat)
    requires a >= 1 && b >= 1
    ensures a * b >= 1
  {
  }

  /**
    A joined row carries no status when its note has no status row, and otherwise
    the `createdAtMillis` and `classification` of one of its note's status rows.
   */
  predicate CarriesStatusOf(jr: JoinedRating, nsh: seq<NoteStatus>) {
    var m := StatusRowsFor(nsh, jr.rating.noteId);
    if |m| == 0 then jr.createdAtMillisNsh.None? && jr.classification.None?
    else exists k :: 0 <= k < |m| && jr.createdAtMillisNsh == m[k].createdAtMillis && jr.classification == m[k].classification
  }

  /** Every row of the left join carries the status of its own note (or none, when it has no status row). */
  lemma {:induction false} LeftJoinCarriesStatus(ratings: seq<Rating>, nsh: seq<NoteStatus>)
    ensures forall k :: 0 <= k < |LeftJoinStatus(ratings, nsh)| ==> CarriesStatusOf(LeftJoinStatus(ratings, nsh)[k], nsh)
  {
    if |ratings| > 0 {
      var r := ratings[0];
      var m := StatusRowsFor(nsh, r.noteId);
      var first := JoinOne(r, m);
      var rest := LeftJoinStatus(ratings[1..], nsh);
      LeftJoinCarriesStatus(ratings[1..], nsh);
      var j := first + rest;
      forall k | 0 <= k < |j| ensures CarriesStatusOf(j[k], nsh) {
        if k < |first| {
          assert j[k] == first[k] && j[k].rating == r;
          if |m| > 0 {
            assert j[k].createdAtMillisNsh == m[k].createdAtMillis && j[k].classification == m[k].classification;
          }
        } else {
          assert j[k] == rest[k - |first|];
        }
      }
    }
  }

  /** The number of joined rows with rating `x` that the mask keeps. */
  function RetainedCopies(joined: seq<JoinedRating>, x: Rating, notMisleadingUILaunchTime: int): nat {
    if |joined| == 0 then 0
    else
      var here := if joined[0].rating == x && Retained(joined[0], notMisleadingUILaunchTime) then 1 else 0;
      here + RetainedCopies(joined[1..], x, notMisleadingUILaunchTime)
  }

  /** The mask keeps a rating once for every joined row of it that satisfies the mask, and never otherwise. */
  lemma {:induction false} RetainedRatingsMultiplicity(joined: seq<JoinedRating>, launch: int, x: Rating)
    ensures multiset(RetainedRatings(joined, launch))[x] == RetainedCopies(joined, x, launch)
    ensures RetainedCopies(joined, x, launch) <= JoinedCopies(joined, x)
  {
    if |joined| > 0 {
      RetainedRatingsMultiplicity(joined[1..], launch, x);
      var rest := RetainedRatings(joined[1..], launch);
      if Retained(joined[0], launch) {
        assert multiset([joined[0].rating] + rest) == multiset([joined[0].rating]) + multiset(rest);
      }
    }
  }

  /** The categories the diagnostic output counts, and the two it does not mention. */
  datatype Category =
    | KeptMisleading
    | KeptDeletedInHistory
    | KeptNewUI
    | RemovedOldUI
    | RemovedDeletedNotInHistory
    | RemovedUnlogged

  predicate InCategory(j: JoinedRating, c: Category, launch: int) {
    match c
    case KeptMisleading => NotDeletedMisleading(j)
    case KeptDeletedInHistory => DeletedButInNsh(j)
    case KeptNewUI => NotDeletedNotMisleadingNewUI(j, launch)
    case RemovedOldUI => NotDeletedNotMisleadingOldUI(j, launch)
    case RemovedDeletedNotInHistory => DeletedNotInNsh(j)
    case RemovedUnlogged =>
      || (j.classification == Some(NotMisleading) && j.createdAtMillisNsh.None?)
      || (j.classification.Some? && j.classification.value.OtherClassification?)
  }

  function CountIn(joined: seq<JoinedRating>, c: Category, launch: int): nat {
    if |joined| == 0 then 0
    else (if InCategory(joined[0], c, launch) then 1 else 0) + CountIn(joined[1..], c, launch)
  }

  function NotesIn(joined: seq<JoinedRating>, c: Category, launch: int): set<int> {
    set i | 0 <= i < |joined| && InCategory(joined[i], c, launch) :: joined[i].rating.noteId
  }

  datatype CategoryCount = CategoryCount(ratings: nat, notes: nat)

  /** The counts printed when `should_log` is set. */
  datatype MisleadingReport = MisleadingReport(
    start: CategoryCount,
    keptMisleading: CategoryCount,
    keptDeletedInHistory: CategoryCount,
    removedOldUI: CategoryCount,
    removedDeletedNotInHistory: CategoryCount)

  function CategoryCountOf(joined: seq<JoinedRating>, c: Category, launch: int): CategoryCount {
    CategoryCount(CountIn(joined, c, launch), |NotesIn(joined, c, launch)|)
  }

  function Report(joined: seq<JoinedRating>, launch: int): MisleadingReport {
    var allNotes := set i | 0 <= i < |joined| :: joined[i].rating.noteId;
    MisleadingReport(
      CategoryCount(|joined|, |allNotes|),
      CategoryCountOf(joined, KeptMisleading, launch),
      CategoryCountOf(joined, KeptDeletedInHistory, launch),
      CategoryCountOf(joined, RemovedOldUI, launch),
      CategoryCountOf(joined, RemovedDeletedNotInHistory, launch))
  }

  /**
    Every joined row is in exactly one category: the kept rows are the misleading,
    the deleted-but-recorded and the new-UI not-misleading ones, and the removed rows
    are the old-UI, the never-recorded and the rows the diagnostics do not mention.
   */
  lemma {:induction false} CategoriesPartitionJoinedRows(joined: seq<JoinedRating>, launch: int)
    ensures |RetainedRatings(joined, launch)| ==
      CountIn(joined, KeptMisleading, launch) + CountIn(joined, KeptDeletedInHistory, launch)
      + CountIn(joined, KeptNewUI, launch)
    ensures |joined| == |RetainedRatings(joined, launch)|
      + CountIn(joined, RemovedOldUI, launch) + CountIn(joined, RemovedDeletedNotInHistory, launch)
      + CountIn(joined, RemovedUnlogged, launch)
  {
    if |joined| > 0 {
      CategoriesPartitionJoinedRows(joined[1..], launch);
    }
  }

  /** The one category of a joined row, decided field by field. */
  function CategoryOf(jr: JoinedRating, notMisleadingUILaunchTime: int): Category {
    match jr.classification
    case None => if jr.createdAtMillisNsh.Some? then KeptDeletedInHistory else RemovedDeletedNotInHistory
    case Some(Misleading) => KeptMisleading
    case Some(NotMisleading) =>
      if jr.createdAtMillisNsh.None? then RemovedUnlogged
      else if jr.createdAtMillisNsh.value > notMisleadingUILaunchTime then KeptNewUI
      else RemovedOldUI
    case Some(OtherClassification(_)) => RemovedUnlogged
  }

  /**
    Each joined row is in exactly one of the six categories, and the mask keeps it
    exactly when that category is one of the three kept ones.
   */
  lemma RowInExactlyOneCategory(jr: JoinedRating, launch: int)
    ensures forall c :: InCategory(jr, c, launch) <==> c == CategoryOf(jr, launch)
    ensures Retained(jr, launch) <==>
      CategoryOf(jr, launch) == KeptMisleading || CategoryOf(jr, launch) == KeptDeletedInHistory
      || CategoryOf(jr, launch) == KeptNewUI
  {
  }

  /** The first status row of `noteId`, if any (the only one when noteId is a key of the table). */
  function LookupStatus(nsh: seq<NoteStatus>, noteId: int): (s: Option<NoteStatus>)
    ensures s.Some? ==> s.value in nsh && s.value.noteId == noteId
    ensures s.None? <==> forall i :: 0 <= i < |nsh| ==> nsh[i].noteId != noteId
  {
    var m := StatusRowsFor(nsh, noteId);
    if |m| == 0 then None else Some(m[0])
  }

  /**
    Whether a rating survives, decided case by case on its note's status row:
    no row at all (deleted before it was ever scored) drops it; a deleted note that
    was scored keeps it; a misleading note keeps it; a not-misleading note keeps it
    only if its status was recorded after the not-misleading answer was launched;
    any other classification drops it.
   */
  predicate KeepRating(status: Option<NoteStatus>, notMisleadingUILaunchTime: int) {
    match status
    case None => false
    case Some(s) =>
      match s.classification
      case None => s.createdAtMillis.Some?
      case Some(Misleading) => true
      case Some(NotMisleading) => s.createdAtMillis.Some? && s.createdAtMillis.value > notMisleadingUILaunchTime
      case Some(OtherClassification(_)) => false
  }

  /** `KeepRating` on the status row of the rating's note. */
  predicate KeptByStatus(x: Rating, nsh: seq<NoteStatus>, notMisleadingUILaunchTime: int) {
    KeepRating(LookupStatus(nsh, x.noteId), notMisleadingUILaunchTime)
  }

  /** The ratings whose note's status keeps them, in input order. */
  function FilterByStatus(ratings: seq<Rating>, nsh: seq<NoteStatus>, notMisleadingUILaunchTime: int): seq<Rating> {
    if |ratings| == 0 then []
    else
      var rest := FilterByStatus(ratings[1..], nsh, notMisleadingUILaunchTime);
      if KeptByStatus(ratings[0], nsh, notMisleadingUILaunchTime) then [ratings[0]] + rest else rest
  }

  /** The lookup filter keeps every copy of a rating its note's status keeps, and no copy of any other. */
  lemma {:induction false} FilterByStatusMultiplicity(ratings: seq<Rating>, nsh: seq<NoteStatus>, launch: int, x: Rating)
    ensures multiset(FilterByStatus(ratings, nsh, launch))[x]
      == if KeptByStatus(x, nsh, launch) then multiset(ratings)[x] else 0
  {
    if |ratings| > 0 {
      assert ratings == [ratings[0]] + ratings[1..];
      FilterByStatusMultiplicity(ratings[1..], nsh, launch, x);
    }
  }

  /** With noteId a key of the status history, a note has at most one status row. */
  lemma {:induction false} UniqueStatusRows(nsh: seq<NoteStatus>, noteId: int)
    requires KeysUnique(nsh, StatusKey)
    ensures |StatusRowsFor(nsh, noteId)| <= 1
  {
    if |nsh| > 0 {
      var tail := nsh[1..];
      assert KeysUnique(tail, StatusKey) by {
        forall i, j | 0 <= i < j < |tail| ensures StatusKey(tail[i]) != StatusKey(tail[j]) {
          assert tail[i] == nsh[i + 1] && tail[j] == nsh[j + 1];
        }
      }
      UniqueStatusRows(tail, noteId);
      if nsh[0].noteId == noteId {
        forall i | 0 <= i < |tail| ensures tail[i].noteId != noteId {
          assert StatusKey(nsh[0]) != StatusKey(nsh[i + 1]);
        }
      }
    }
  }

  /** The mask on a joined row agrees with `KeepRating` on the row it was joined with. */
  lemma JoinOneRetainedAgrees(r: Rating, nsh: seq<NoteStatus>, launch: int)
    requires |StatusRowsFor(nsh, r.noteId)| <= 1
    ensures RetainedRatings(JoinOne(r, StatusRowsFor(nsh, r.noteId)), launch)
      == if KeptByStatus(r, nsh, launch) then [r] else []
  {
    var m := StatusRowsFor(nsh, r.noteId);
    var j := JoinOne(r, m);
    assert |j| == 1;
    assert j[1..] == [];
  }

  /**
    With one status row per note, the left join followed by the mask is the
    lookup filter: each rating is kept or dropped by `KeepRating` on its note's row.
   */
  lemma {:induction false} MisleadingMaskIsLookupFilter(ratings: seq<Rating>, nsh: seq<NoteStatus>, launch: int)
    requires KeysUnique(nsh, StatusKey)
    ensures RetainedRatings(LeftJoinStatus(ratings, nsh), launch) == FilterByStatus(ratings, nsh, launch)
  {
    if |ratings| > 0 {
      var r := ratings[0];
      UniqueStatusRows(nsh, r.noteId);
      JoinOneRetainedAgrees(r, nsh, launch);
      RetainedRatingsAppend(JoinOne(r, StatusRowsFor(nsh, r.noteId)), LeftJoinStatus(ratings[1..], nsh), launch);
      MisleadingMaskIsLookupFilter(ratings[1..], nsh, launch);
    }
  }

  datatype MisleadingFilterResult = MisleadingFilterResult(ratings: seq<Rating>, report: Option<MisleadingReport>)

  /**
    Keeps the ratings of misleading notes, of deleted notes that were scored, and of
    not-misleading notes recorded after the not-misleading answer was launched.
    The diagnostic report exists exactly when `shouldLog` is set. Every output row is
    an input rating; with one status row per note, the output is the input, in order,
    with the ratings `KeepRating` rejects removed.
   */
  function FilterRatingsOfMisleadingNotes(
    ratings: seq<Rating>,
    noteStatusHistory: seq<NoteStatus>,
    notMisleadingUILaunchTime: int,
    shouldLog: bool): (r: MisleadingFilterResult)
    ensures r.report.Some? <==> shouldLog
    ensures forall i :: 0 <= i < |r.ratings| ==> r.ratings[i] in ratings
    ensures KeysUnique(noteStatusHistory, StatusKey) ==>
      r.ratings == FilterByStatus(ratings, noteStatusHistory, notMisleadingUILaunchTime)
  {
    var joined := LeftJoinStatus(ratings, noteStatusHistory);
    var report := if shouldLog then Some(Report(joined, notMisleadingUILaunchTime)) else None;
    var kept := RetainedRatings(joined, notMisleadingUILaunchTime);
    assert forall i :: 0 <= i < |kept| ==> kept[i] in ratings;
    if KeysUnique(noteStatusHistory, StatusKey) then
      MisleadingMaskIsLookupFilter(ratings, noteStatusHistory, notMisleadingUILaunchTime);
      MisleadingFilterResult(kept, report)
    else
      MisleadingFilterResult(kept, report)
  }

  /** The ratings returned do not depend on whether diagnostics are printed. */
  lemma ShouldLogDoesNotChangeRatings(ratings: seq<Rating>, nsh: seq<NoteStatus>, launch: int)
    ensures FilterRatingsOfMisleadingNotes(ratings, nsh, launch, true).ratings
      == FilterRatingsOfMisleadingNotes(ratings, nsh, launch, false).ratings
  {
  }

  /** The decision table, spelled out: which statuses keep a rating and which drop it. */
  lemma KeepRatingCases(status: Option<NoteStatus>, launch: int)
    ensures status.None? ==> !KeepRating(status, launch)
    ensures status.Some? ==> (KeepRating(status, launch) <==>
      || status.value.classification == Some(Misleading)
      || (status.value.classification.None? && status.value.createdAtMillis.Some?)
      || (status.value.classification == Some(NotMisleading)
          && status.value.createdAtMillis.Some? && status.value.createdAtMillis.value > launch))
  {
  }

  /** A status history with one row per case of the filter: notes 1, 2, 4, 5 and 6; note 3 has none. */
  function SampleHistory(launch: int): seq<NoteStatus> {
    [NoteStatus(1, Some(launch - 5), Some(Misleading), []),
     NoteStatus(2, Some(launch - 5), None, []),
     NoteStatus(4, Some(launch - 1), Some(NotMisleading), []),
     NoteStatus(5, Some(launch), Some(NotMisleading), []),
     NoteStatus(6, Some(launch + 1), Some(NotMisleading), [])]
  }

  /** The sample history has one row per note. */
  lemma SampleHistoryKeysUnique(launch: int)
    ensures KeysUnique(SampleHistory(launch), StatusKey)
  {
  }

  /** The filter keeps the ratings of notes 1 (misleading), 2 (deleted, scored) and 6 (recorded after the launch). */
  lemma SampleHistoryKeeps(launch: int)
    ensures KeepRating(LookupStatus(SampleHistory(launch), 1), launch)
    ensures KeepRating(LookupStatus(SampleHistory(launch), 2), launch)
    ensures KeepRating(LookupStatus(SampleHistory(launch), 6), launch)
  {
    var nsh := SampleHistory(launch);
    assert nsh[4..][1..] == nsh[5..];
    assert StatusRowsFor(nsh[4..], 1) == [];
    assert StatusRowsFor(nsh[4..], 2) == [];
    assert StatusRowsFor(nsh[4..], 6) == [nsh[4]];
    assert nsh[3..][1..] == nsh[4..];
    assert StatusRowsFor(nsh[3..], 1) == [];
    assert StatusRowsFor(nsh[3..], 2) == [];
    assert StatusRowsFor(nsh[3..], 6) == [nsh[4]];
    assert nsh[2..][1..] == nsh[3..];
    assert StatusRowsFor(nsh[2..], 1) == [];
    assert StatusRowsFor(nsh[2..], 2) == [];
    assert StatusRowsFor(nsh[2..], 6) == [nsh[4]];
    assert nsh[1..][1..] == nsh[2..];
    assert StatusRowsFor(nsh[1..], 1) == [];
    assert StatusRowsFor(nsh[1..], 2) == [nsh[1]];
    assert StatusRowsFor(nsh[1..], 6) == [nsh[4]];
    assert nsh[0..][1..] == nsh[1..];
    assert StatusRowsFor(nsh[0..], 1) == [nsh[0]];
    assert StatusRowsFor(nsh[0..], 2) == [nsh[1]];
    assert StatusRowsFor(nsh[0..], 6) == [nsh[4]];
    assert nsh[0..] == nsh;
  }

  /** The filter drops the rating of note 3, which has no status row. */
  lemma SampleHistoryDropsUnrecorded(launch: int)
    ensures !KeepRating(LookupStatus(SampleHistory(launch), 3), launch)
  {
    var nsh := SampleHistory(launch);
    assert forall i :: 0 <= i < |nsh| ==> nsh[i].noteId != 3;
  }

  /** The filter drops the ratings of notes 4 (recorded before the launch) and 5 (recorded at the launch). */
  lemma SampleHistoryDropsBeforeLaunch(launch: int)
    ensures !KeepRating(LookupStatus(SampleHistory(launch), 4), launch)
    ensures !KeepRating(LookupStatus(SampleHistory(launch), 5), launch)
  {
    var nsh := SampleHistory(launch);
    assert nsh[2].noteId == 4 && nsh[3].noteId == 5;
  }

  /**
    The worked cases: a misleading note keeps its rating, a deleted note that was
    scored keeps it, a note never recorded loses it, and a not-misleading note loses
    it when recorded before or at the launch time and keeps it when recorded after.
   */
  lemma MisleadingFilterExamples(ratings: seq<Rating>, launch: int)
    requires |ratings| == 6
    requires forall i :: 0 <= i < 6 ==> ratings[i].noteId == i + 1
    ensures FilterRatingsOfMisleadingNotes(ratings, SampleHistory(launch), launch, false).ratings
      == [ratings[0], ratings[1], ratings[5]]
  {
    SampleHistoryKeysUnique(launch);
    forall i | 0 <= i < 6
      ensures KeptByStatus(ratings[i], SampleHistory(launch), launch) <==> i == 0 || i == 1 || i == 5
    {
      SampleHistoryDecides(ratings[i], launch);
    }
    FilterByStatusOfExample(ratings, SampleHistory(launch), launch);
  }

  /** On the sample history, a rating of notes 1 to 6 is kept exactly for notes 1, 2 and 6. */
  lemma SampleHistoryDecides(r: Rating, launch: int)
    requires 1 <= r.noteId <= 6
    ensures KeptByStatus(r, SampleHistory(launch), launch) <==> r.noteId == 1 || r.noteId == 2 || r.noteId == 6
  {
    if r.noteId == 3 {
      SampleHistoryDropsUnrecorded(launch);
    } else if r.noteId == 4 || r.noteId == 5 {
      SampleHistoryDropsBeforeLaunch(launch);
    } else {
      SampleHistoryKeeps(launch);
    }
  }

  /** The lookup filter on six ratings of which the first, second and last are kept. */
  lemma FilterByStatusOfExample(ratings: seq<Rating>, nsh: seq<NoteStatus>, launch: int)
    requires |ratings| == 6
    requires KeptByStatus(ratings[0], nsh, launch) && KeptByStatus(ratings[1], nsh, launch)
    requires !KeptByStatus(ratings[2], nsh, launch) && !KeptByStatus(ratings[3], nsh, launch)
    requires !KeptByStatus(ratings[4], nsh, launch) && KeptByStatus(ratings[5], nsh, launch)
    ensures FilterByStatus(ratings, nsh, launch) == [ratings[0], ratings[1], ratings[5]]
  {
    assert ratings[5..][1..] == [];
    assert FilterByStatus(ratings[5..], nsh, launch) == [ratings[5]];
    assert ratings[4..][1..] == ratings[5..];
    assert FilterByStatus(ratings[4..], nsh, launch) == [ratings[5]];
    assert ratings[3..][1..] == ratings[4..];
    assert FilterByStatus(ratings[3..], nsh, launch) == [ratings[5]];
    assert ratings[2..][1..] == ratings[3..];
    assert FilterByStatus(ratings[2..], nsh, launch) == [ratings[5]];
    assert ratings[1..][1..] == ratings[2..];
    assert FilterByStatus(ratings[1..], nsh, launch) == [ratings[1], ratings[5]];
    assert FilterByStatus(ratings, nsh, launch) == [ratings[0]] + FilterByStatus(ratings[1..], nsh, launch);
  }

  /**
    Why the filter needs one status row per note: a note with two status rows makes
    the left join emit its rating twice, so the output is no longer a sub-table of the input.
   */
  lemma RepeatedStatusRowsRepeatRatings(x: Rating, launch: int)
    ensures
      var s := NoteStatus(x.noteId, Some(launch), Some(Misleading), []);
      FilterRatingsOfMisleadingNotes([x], [s, s], launch, false).ratings == [x, x]
  {
    var s := NoteStatus(x.noteId, Some(launch), Some(Misleading), []);
    assert StatusRowsFor([s, s], x.noteId) == [s, s];
    var joinedRow := JoinedRating(x, Some(launch), Some(Misleading));
    var j := LeftJoinStatus([x], [s, s]);
    assert j == JoinOne(x, [s, s]) + LeftJoinStatus([], [s, s]);
    assert j == [joinedRow, joinedRow];
    assert RetainedRatings(j[1..], launch) == [x];
  }

  // ---------------------------------------------------------------------------
  // Minimum number of ratings per note and per rater
  // ---------------------------------------------------------------------------

  /** The number of ratings of note `noteId` (its group size in `groupby(noteId).size()`). */
  function NoteRatingCount(s: seq<Rating>, noteId: int): nat {
    if |s| == 0 then 0
    else (if s[0].noteId == noteId then 1 else 0) + NoteRatingCount(s[1..], noteId)
  }

  /** The number of ratings made by rater `rater`. */
  function RaterRatingCount(s: seq<Rating>, rater: string): nat {
    if |s| == 0 then 0
    else (if s[0].raterParticipantId == rater then 1 else 0) + RaterRatingCount(s[1..], rater)
  }

  /** The noteId column. */
  function NoteIdColumn(s: seq<Rating>): (ids: seq<int>)
    ensures |ids| == |s| && forall i :: 0 <= i < |s| ==> ids[i] == s[i].noteId
  {
    seq(|s|, i requires 0 <= i < |s| => s[i].noteId)
  }

  /** The raterParticipantId column. */
  function RaterColumn(s: seq<Rating>): (ids: seq<string>)
    ensures |ids| == |s| && forall i :: 0 <= i < |s| ==> ids[i] == s[i].raterParticipantId
  {
    seq(|s|, i requires 0 <= i < |s| => s[i].raterParticipantId)
  }

  /** A note's rating count is how often its noteId occurs in the noteId column (its group size). */
  lemma {:induction false} NoteRatingCountIsGroupSize(s: seq<Rating>, noteId: int)
    ensures NoteRatingCount(s, noteId) == multiset(NoteIdColumn(s))[noteId]
  {
    if |s| > 0 {
      NoteRatingCountIsGroupSize(s[1..], noteId);
      assert NoteIdColumn(s) == [s[0].noteId] + NoteIdColumn(s[1..]);
    }
  }

  /** A rater's rating count is how often the rater occurs in the rater column. */
  lemma {:induction false} RaterRatingCountIsGroupSize(s: seq<Rating>, rater: string)
    ensures RaterRatingCount(s, rater) == multiset(RaterColumn(s))[rater]
  {
    if |s| > 0 {
      RaterRatingCountIsGroupSize(s[1..], rater);
      assert RaterColumn(s) == [s[0].raterParticipantId] + RaterColumn(s[1..]);
    }
  }

  /** The rows of `t` whose note has at least `minRatings` ratings in `counted` (an inner merge on noteId). */
  function RatingsOnNotesWithCount(t: seq<Rating>, counted: seq<Rating>, minRatings: int): seq<Rating> {
    if |t| == 0 then []
    else
      var rest := RatingsOnNotesWithCount(t[1..], counted, minRatings);
      if NoteRatingCount(counted, t[0].noteId) >= minRatings then [t[0]] + rest else rest
  }

  /** The rows of `t` whose rater has at least `minRatings` ratings in `counted` (an inner merge on the rater). */
  function RatingsFromRatersWithCount(t: seq<Rating>, counted: seq<Rating>, minRatings: int): seq<Rating> {
    if |t| == 0 then []
    else
      var rest := RatingsFromRatersWithCount(t[1..], counted, minRatings);
      if RaterRatingCount(counted, t[0].raterParticipantId) >= minRatings then [t[0]] + rest else rest
  }

  /** A note pass keeps every copy of a rating whose note is counted often enough, and no other. */
  lemma {:induction false} NotePassMultiplicity(t: seq<Rating>, counted: seq<Rating>, minRatings: int, x: Rating)
    ensures multiset(RatingsOnNotesWithCount(t, counted, minRatings))[x]
      == if NoteRatingCount(counted, x.noteId) >= minRatings then multiset(t)[x] else 0
  {
    if |t| > 0 {
      assert t == [t[0]] + t[1..];
      NotePassMultiplicity(t[1..], counted, minRatings, x);
    }
  }

  /** A rater pass keeps every copy of a rating whose rater is counted often enough, and no other. */
  lemma {:induction false} RaterPassMultiplicity(t: seq<Rating>, counted: seq<Rating>, minRatings: int, x: Rating)
    ensures multiset(RatingsFromRatersWithCount(t, counted, minRatings))[x]
      == if RaterRatingCount(counted, x.raterParticipantId) >= minRatings then multiset(t)[x] else 0
  {
    if |t| > 0 {
      assert t == [t[0]] + t[1..];
      RaterPassMultiplicity(t[1..], counted, minRatings, x);
    }
  }

  /** A note pass returns a sub-table of its input. */
  lemma NotePassIsSubMultiset(t: seq<Rating>, counted: seq<Rating>, minRatings: int)
    ensures multiset(RatingsOnNotesWithCount(t, counted, minRatings)) <= multiset(t)
  {
    forall x { NotePassMultiplicity(t, counted, minRatings, x); }
  }

  /** A rater pass returns a sub-table of its input. */
  lemma RaterPassIsSubMultiset(t: seq<Rating>, counted: seq<Rating>, minRatings: int)
    ensures multiset(RatingsFromRatersWithCount(t, counted, minRatings)) <= multiset(t)
  {
    forall x { RaterPassMultiplicity(t, counted, minRatings, x); }
  }

  /** A note pass keeps a note's ratings all together or not at all. */
  lemma {:induction false} NotePassCount(t: seq<Rating>, counted: seq<Rating>, minRatings: int, noteId: int)
    ensures NoteRatingCount(RatingsOnNotesWithCount(t, counted, minRatings), noteId)
      == if NoteRatingCount(counted, noteId) >= minRatings then NoteRatingCount(t, noteId) else 0
  {
    if |t| > 0 {
      NotePassCount(t[1..], counted, minRatings, noteId);
      var rest := RatingsOnNotesWithCount(t[1..], counted, minRatings);
      assert ([t[0]] + rest)[1..] == rest;
    }
  }

  /** A note pass that keeps every row of `t` returns `t`. */
  lemma {:induction false} NotePassKeepsAll(t: seq<Rating>, counted: seq<Rating>, minRatings: int)
    requires forall i :: 0 <= i < |t| ==> NoteRatingCount(counted, t[i].noteId) >= minRatings
    ensures RatingsOnNotesWithCount(t, counted, minRatings) == t
  {
    if |t| > 0 {
      NotePassKeepsAll(t[1..], counted, minRatings);
      assert [t[0]] + t[1..] == t;
    }
  }

  /**
    `_filter_ratings_on_notes_with_minimal_num_ratings`: keeps the ratings of notes
    with at least `minNumRatersPerNote` ratings; afterwards every note left has that many.
   */
  function FilterRatingsOnNotesWithMinimalNumRatings(ratings: seq<Rating>, minNumRatersPerNote: int): (r: seq<Rating>)
    ensures multiset(r) <= multiset(ratings)
    ensures forall i :: 0 <= i < |r| ==> NoteRatingCount(r, r[i].noteId) >= minNumRatersPerNote
  {
    var r := RatingsOnNotesWithCount(ratings, ratings, minNumRatersPerNote);
    NotePassIsSubMultiset(ratings, ratings, minNumRatersPerNote);
    assert forall i :: 0 <= i < |r| ==> NoteRatingCount(r, r[i].noteId) >= minNumRatersPerNote by {
      forall i | 0 <= i < |r|
        ensures NoteRatingCount(r, r[i].noteId) >= minNumRatersPerNote
      {
        var x := r[i];
        assert x in multiset(r);
        NotePassMultiplicity(ratings, ratings, minNumRatersPerNote, x);
        NotePassCount(ratings, ratings, minNumRatersPerNote, x.noteId);
      }
    }
    r
  }

  /** `_filter_ratings_from_raters_with_minimal_num_ratings`: keeps the ratings of raters with enough ratings. */
  function FilterRatingsFromRatersWithMinimalNumRatings(ratings: seq<Rating>, minNumRatingsPerRater: int): (r: seq<Rating>)
    ensures multiset(r) <= multiset(ratings)
    ensures forall i :: 0 <= i < |r| ==> RaterRatingCount(ratings, r[i].raterParticipantId) >= minNumRatingsPerRater
  {
    var r := RatingsFromRatersWithCount(ratings, ratings, minNumRatingsPerRater);
    RaterPassIsSubMultiset(ratings, ratings, minNumRatingsPerRater);
    assert forall i :: 0 <= i < |r| ==> RaterRatingCount(ratings, r[i].raterParticipantId) >= minNumRatingsPerRater by {
      forall i | 0 <= i < |r|
        ensures RaterRatingCount(ratings, r[i].raterParticipantId) >= minNumRatingsPerRater
      {
        assert r[i] in multiset(r);
        RaterPassMultiplicity(ratings, ratings, minNumRatingsPerRater, r[i]);
      }
    }
    r
  }

  /** Applying the note pass to its own output changes nothing. */
  lemma NotePassIdempotent(ratings: seq<Rating>, minNumRatersPerNote: int)
    ensures var once := FilterRatingsOnNotesWithMinimalNumRatings(ratings, minNumRatersPerNote);
      FilterRatingsOnNotesWithMinimalNumRatings(once, minNumRatersPerNote) == once
  {
    var once := FilterRatingsOnNotesWithMinimalNumRatings(ratings, minNumRatersPerNote);
    NotePassKeepsAll(once, once, minNumRatersPerNote);
  }

  /**
    `FilterRatingsForTraining.filter`: a note pass, a rater pass and a second note pass,
    with no iteration to a fixed point. The result is a sub-multiset of the input and
    every note in it has at least `minNumRatersPerNote` ratings; raters are not re-checked.
   */
  function FilterRatingsForTraining(ratings: seq<Rating>, minNumRatersPerNote: int, minNumRatingsPerRater: int): (r: seq<Rating>)
    ensures multiset(r) <= multiset(ratings)
    ensures forall i :: 0 <= i < |r| ==> NoteRatingCount(r, r[i].noteId) >= minNumRatersPerNote
  {
    var afterNotes := FilterRatingsOnNotesWithMinimalNumRatings(ratings, minNumRatersPerNote);
    var afterRaters := FilterRatingsFromRatersWithMinimalNumRatings(afterNotes, minNumRatingsPerRater);
    FilterRatingsOnNotesWithMinimalNumRatings(afterRaters, minNumRatersPerNote)
  }

  /** Note counts of the seven-rating sample below. */
  lemma NoteCountsOfExample(s: seq<Rating>)
    requires |s| == 7 && s[0].noteId == s[1].noteId == s[2].noteId == 1
    requires s[3].noteId == s[4].noteId == 2 && s[5].noteId == s[6].noteId == 3
    ensures NoteRatingCount(s, 1) == 3 && NoteRatingCount(s, 2) == 2 && NoteRatingCount(s, 3) == 2
  {
    assert s[6..][1..] == s[7..];
    assert NoteRatingCount(s[6..], 1) == NoteRatingCount(s[7..], 1) + (if s[6].noteId == 1 then 1 else 0);
    assert NoteRatingCount(s[6..], 2) == NoteRatingCount(s[7..], 2) + (if s[6].noteId == 2 then 1 else 0);
    assert NoteRatingCount(s[6..], 3) == NoteRatingCount(s[7..], 3) + (if s[6].noteId == 3 then 1 else 0);
    assert s[5..][1..] == s[6..];
    assert NoteRatingCount(s[5..], 1) == NoteRatingCount(s[6..], 1) + (if s[5].noteId == 1 then 1 else 0);
    assert NoteRatingCount(s[5..], 2) == NoteRatingCount(s[6..], 2) + (if s[5].noteId == 2 then 1 else 0);
    assert NoteRatingCount(s[5..], 3) == NoteRatingCount(s[6..], 3) + (if s[5].noteId == 3 then 1 else 0);
    assert s[4..][1..] == s[5..];
    assert NoteRatingCount(s[4..], 1) == NoteRatingCount(s[5..], 1) + (if s[4].noteId == 1 then 1 else 0);
    assert NoteRatingCount(s[4..], 2) == NoteRatingCount(s[5..], 2) + (if s[4].noteId == 2 then 1 else 0);
    assert NoteRatingCount(s[4..], 3) == NoteRatingCount(s[5..], 3) + (if s[4].noteId == 3 then 1 else 0);
    assert s[3..][1..] == s[4..];
    assert NoteRatingCount(s[3..], 1) == NoteRatingCount(s[4..], 1) + (if s[3].noteId == 1 then 1 else 0);
    assert NoteRatingCount(s[3..], 2) == NoteRatingCount(s[4..], 2) + (if s[3].noteId == 2 then 1 else 0);
    assert NoteRatingCount(s[3..], 3) == NoteRatingCount(s[4..], 3) + (if s[3].noteId == 3 then 1 else 0);
    assert s[2..][1..] == s[3..];
    assert NoteRatingCount(s[2..], 1) == NoteRatingCount(s[3..], 1) + (if s[2].noteId == 1 then 1 else 0);
    assert NoteRatingCount(s[2..], 2) == NoteRatingCount(s[3..], 2) + (if s[2].noteId == 2 then 1 else 0);
    assert NoteRatingCount(s[2..], 3) == NoteRatingCount(s[3..], 3) + (if s[2].noteId == 3 then 1 else 0);
    assert s[1..][1..] == s[2..];
    assert NoteRatingCount(s[1..], 1) == NoteRatingCount(s[2..], 1) + (if s[1].noteId == 1 then 1 else 0);
    assert NoteRatingCount(s[1..], 2) == NoteRatingCount(s[2..], 2) + (if s[1].noteId == 2 then 1 else 0);
    assert NoteRatingCount(s[1..], 3) == NoteRatingCount(s[2..], 3) + (if s[1].noteId == 3 then 1 else 0);
    assert s[0..][1..] == s[1..];
    assert NoteRatingCount(s[0..], 1) == NoteRatingCount(s[1..], 1) + (if s[0].noteId == 1 then 1 else 0);
    assert NoteRatingCount(s[0..], 2) == NoteRatingCount(s[1..], 2) + (if s[0].noteId == 2 then 1 else 0);
    assert NoteRatingCount(s[0..], 3) == NoteRatingCount(s[1..], 3) + (if s[0].noteId == 3 then 1 else 0);
  }

  /** Rater counts of the seven-rating sample below. */
  lemma RaterCountsOfExample(s: seq<Rating>)
    requires |s| == 7
    requires s[0].raterParticipantId == s[3].raterParticipantId == "a"
    requires s[1].raterParticipantId == s[5].raterParticipantId == "b"
    requires s[4].raterParticipantId == "c"
    requires s[2].raterParticipantId == s[6].raterParticipantId == "d"
    ensures RaterRatingCount(s, "a") == 2 && RaterRatingCount(s, "b") == 2
    ensures RaterRatingCount(s, "c") == 1 && RaterRatingCount(s, "d") == 2
  {
    assert s[6..][1..] == s[7..];
    assert RaterRatingCount(s[6..], "a") == RaterRatingCount(s[7..], "a") + (if s[6].raterParticipantId == "a" then 1 else 0);
    assert RaterRatingCount(s[6..], "b") == RaterRatingCount(s[7..], "b") + (if s[6].raterParticipantId == "b" then 1 else 0);
    assert RaterRatingCount(s[6..], "c") == RaterRatingCount(s[7..], "c") + (if s[6].raterParticipantId == "c" then 1 else 0);
    assert RaterRatingCount(s[6..], "d") == RaterRatingCount(s[7..], "d") + (if s[6].raterParticipantId == "d" then 1 else 0);
    assert s[5..][1..] == s[6..];
    assert RaterRatingCount(s[5..], "a") == RaterRatingCount(s[6..], "a") + (if s[5].raterParticipantId == "a" then 1 else 0);
    assert RaterRatingCount(s[5..], "b") == RaterRatingCount(s[6..], "b") + (if s[5].raterParticipantId == "b" then 1 else 0);
    assert RaterRatingCount(s[5..], "c") == RaterRatingCount(s[6..], "c") + (if s[5].raterParticipantId == "c" then 1 else 0);
    assert RaterRatingCount(s[5..], "d") == RaterRatingCount(s[6..], "d") + (if s[5].raterParticipantId == "d" then 1 else 0);
    assert s[4..][1..] == s[5..];
    assert RaterRatingCount(s[4..], "a") == RaterRatingCount(s[5..], "a") + (if s[4].raterParticipantId == "a" then 1 else 0);
    assert RaterRatingCount(s[4..], "b") == RaterRatingCount(s[5..], "b") + (if s[4].raterParticipantId == "b" then 1 else 0);
    assert RaterRatingCount(s[4..], "c") == RaterRatingCount(s[5..], "c") + (if s[4].raterParticipantId == "c" then 1 else 0);
    assert RaterRatingCount(s[4..], "d") == RaterRatingCount(s[5..], "d") + (if s[4].raterParticipantId == "d" then 1 else 0);
    assert s[3..][1..] == s[4..];
    assert RaterRatingCount(s[3..], "a") == RaterRatingCount(s[4..], "a") + (if s[3].raterParticipantId == "a" then 1 else 0);
    assert RaterRatingCount(s[3..], "b") == RaterRatingCount(s[4..], "b") + (if s[3].raterParticipantId == "b" then 1 else 0);
    assert RaterRatingCount(s[3..], "c") == RaterRatingCount(s[4..], "c") + (if s[3].raterParticipantId == "c" then 1 else 0);
    assert RaterRatingCount(s[3..], "d") == RaterRatingCount(s[4..], "d") + (if s[3].raterParticipantId == "d" then 1 else 0);
    assert s[2..][1..] == s[3..];
    assert RaterRatingCount(s[2..], "a") == RaterRatingCount(s[3..], "a") + (if s[2].raterParticipantId == "a" then 1 else 0);
    assert RaterRatingCount(s[2..], "b") == RaterRatingCount(s[3..], "b") + (if s[2].raterParticipantId == "b" then 1 else 0);
    assert RaterRatingCount(s[2..], "c") == RaterRatingCount(s[3..], "c") + (if s[2].raterParticipantId == "c" then 1 else 0);
    assert RaterRatingCount(s[2..], "d") == RaterRatingCount(s[3..], "d") + (if s[2].raterParticipantId == "d" then 1 else 0);
    assert s[1..][1..] == s[2..];
    assert RaterRatingCount(s[1..], "a") == RaterRatingCount(s[2..], "a") + (if s[1].raterParticipantId == "a" then 1 else 0);
    assert RaterRatingCount(s[1..], "b") == RaterRatingCount(s[2..], "b") + (if s[1].raterParticipantId == "b" then 1 else 0);
    assert RaterRatingCount(s[1..], "c") == RaterRatingCount(s[2..], "c") + (if s[1].raterParticipantId == "c" then 1 else 0);
    assert RaterRatingCount(s[1..], "d") == RaterRatingCount(s[2..], "d") + (if s[1].raterParticipantId == "d" then 1 else 0);
    assert s[0..][1..] == s[1..];
    assert RaterRatingCount(s[0..], "a") == RaterRatingCount(s[1..], "a") + (if s[0].raterParticipantId == "a" then 1 else 0);
    assert RaterRatingCount(s[0..], "b") == RaterRatingCount(s[1..], "b") + (if s[0].raterParticipantId == "b" then 1 else 0);
    assert RaterRatingCount(s[0..], "c") == RaterRatingCount(s[1..], "c") + (if s[0].raterParticipantId == "c" then 1 else 0);
    assert RaterRatingCount(s[0..], "d") == RaterRatingCount(s[1..], "d") + (if s[0].raterParticipantId == "d" then 1 else 0);
  }

  /** Note counts once rater "c" has been removed from the sample. */
  lemma NoteCountsAfterRaterPass(s: seq<Rating>)
    requires |s| == 6 && s[0].noteId == s[1].noteId == s[2].noteId == 1
    requires s[3].noteId == 2 && s[4].noteId == s[5].noteId == 3
    ensures NoteRatingCount(s, 1) == 3 && NoteRatingCount(s, 2) == 1 && NoteRatingCount(s, 3) == 2
  {
    assert s[5..][1..] == s[6..];
    assert NoteRatingCount(s[5..], 1) == NoteRatingCount(s[6..], 1) + (if s[5].noteId == 1 then 1 else 0);
    assert NoteRatingCount(s[5..], 2) == NoteRatingCount(s[6..], 2) + (if s[5].noteId == 2 then 1 else 0);
    assert NoteRatingCount(s[5..], 3) == NoteRatingCount(s[6..], 3) + (if s[5].noteId == 3 then 1 else 0);
    assert s[4..][1..] == s[5..];
    assert NoteRatingCount(s[4..], 1) == NoteRatingCount(s[5..], 1) + (if s[4].noteId == 1 then 1 else 0);
    assert NoteRatingCount(s[4..], 2) == NoteRatingCount(s[5..], 2) + (if s[4].noteId == 2 then 1 else 0);
    assert NoteRatingCount(s[4..], 3) == NoteRatingCount(s[5..], 3) + (if s[4].noteId == 3 then 1 else 0);
    assert s[3..][1..] == s[4..];
    assert NoteRatingCount(s[3..], 1) == NoteRatingCount(s[4..], 1) + (if s[3].noteId == 1 then 1 else 0);
    assert NoteRatingCount(s[3..], 2) == NoteRatingCount(s[4..], 2) + (if s[3].noteId == 2 then 1 else 0);
    assert NoteRatingCount(s[3..], 3) == NoteRatingCount(s[4..], 3) + (if s[3].noteId == 3 then 1 else 0);
    assert s[2..][1..] == s[3..];
    assert NoteRatingCount(s[2..], 1) == NoteRatingCount(s[3..], 1) + (if s[2].noteId == 1 then 1 else 0);
    assert NoteRatingCount(s[2..], 2) == NoteRatingCount(s[3..], 2) + (if s[2].noteId == 2 then 1 else 0);
    assert NoteRatingCount(s[2..], 3) == NoteRatingCount(s[3..], 3) + (if s[2].noteId == 3 then 1 else 0);
    assert s[1..][1..] == s[2..];
    assert NoteRatingCount(s[1..], 1) == NoteRatingCount(s[2..], 1) + (if s[1].noteId == 1 then 1 else 0);
    assert NoteRatingCount(s[1..], 2) == NoteRatingCount(s[2..], 2) + (if s[1].noteId == 2 then 1 else 0);
    assert NoteRatingCount(s[1..], 3) == NoteRatingCount(s[2..], 3) + (if s[1].noteId == 3 then 1 else 0);
    assert s[0..][1..] == s[1..];
    assert NoteRatingCount(s[0..], 1) == NoteRatingCount(s[1..], 1) + (if s[0].noteId == 1 then 1 else 0);
    assert NoteRatingCount(s[0..], 2) == NoteRatingCount(s[1..], 2) + (if s[0].noteId == 2 then 1 else 0);
    assert NoteRatingCount(s[0..], 3) == NoteRatingCount(s[1..], 3) + (if s[0].noteId == 3 then 1 else 0);
  }

  /** The rater pass over the sample removes exactly the one rating of rater "c". */
  lemma RaterPassOfExample(s: seq<Rating>)
    requires |s| == 7
    requires s[0].raterParticipantId == s[3].raterParticipantId == "a"
    requires s[1].raterParticipantId == s[5].raterParticipantId == "b"
    requires s[4].raterParticipantId == "c"
    requires s[2].raterParticipantId == s[6].raterParticipantId == "d"
    ensures RatingsFromRatersWithCount(s, s, 2) == [s[0], s[1], s[2], s[3], s[5], s[6]]
  {
    RaterCountsOfExample(s);
    assert s[6..][1..] == s[7..];
    assert RatingsFromRatersWithCount(s[6..], s, 2) == [s[6]];
    assert s[5..][1..] == s[6..];
    assert RatingsFromRatersWithCount(s[5..], s, 2) == [s[5], s[6]];
    assert s[4..][1..] == s[5..];
    assert RatingsFromRatersWithCount(s[4..], s, 2) == [s[5], s[6]];
    assert s[3..][1..] == s[4..];
    assert RatingsFromRatersWithCount(s[3..], s, 2) == [s[3], s[5], s[6]];
    assert s[2..][1..] == s[3..];
    assert RatingsFromRatersWithCount(s[2..], s, 2) == [s[2], s[3], s[5], s[6]];
    assert s[1..][1..] == s[2..];
    assert RatingsFromRatersWithCount(s[1..], s, 2) == [s[1], s[2], s[3], s[5], s[6]];
    assert RatingsFromRatersWithCount(s, s, 2) == [s[0]] + RatingsFromRatersWithCount(s[1..], s, 2);
  }

  /** The second note pass over the sample removes the rating of the note left with one rating. */
  lemma SecondNotePassOfExample(s: seq<Rating>)
    requires |s| == 6 && s[0].noteId == s[1].noteId == s[2].noteId == 1
    requires s[3].noteId == 2 && s[4].noteId == s[5].noteId == 3
    ensures RatingsOnNotesWithCount(s, s, 2) == [s[0], s[1], s[2], s[4], s[5]]
  {
    NoteCountsAfterRaterPass(s);
    assert s[5..][1..] == s[6..];
    assert RatingsOnNotesWithCount(s[5..], s, 2) == [s[5]];
    assert s[4..][1..] == s[5..];
    assert RatingsOnNotesWithCount(s[4..], s, 2) == [s[4], s[5]];
    assert s[3..][1..] == s[4..];
    assert RatingsOnNotesWithCount(s[3..], s, 2) == [s[4], s[5]];
    assert s[2..][1..] == s[3..];
    assert RatingsOnNotesWithCount(s[2..], s, 2) == [s[2], s[4], s[5]];
    assert s[1..][1..] == s[2..];
    assert RatingsOnNotesWithCount(s[1..], s, 2) == [s[1], s[2], s[4], s[5]];
    assert RatingsOnNotesWithCount(s, s, 2) == [s[0]] + RatingsOnNotesWithCount(s[1..], s, 2);
  }

  /** Rater "a" has one rating in the output of the sample. */
  lemma RaterCountOfExampleOutput(s: seq<Rating>)
    requires |s| == 5 && s[0].raterParticipantId == "a"
    requires s[1].raterParticipantId == s[3].raterParticipantId == "b"
    requires s[2].raterParticipantId == s[4].raterParticipantId == "d"
    ensures RaterRatingCount(s, "a") == 1
  {
    assert RaterRatingCount(s[4..], "a") == 0 by { assert s[4..][1..] == []; }
    assert RaterRatingCount(s[3..], "a") == 0 by { assert s[3..][1..] == s[4..]; }
    assert RaterRatingCount(s[2..], "a") == 0 by { assert s[2..][1..] == s[3..]; }
    assert RaterRatingCount(s[1..], "a") == 0 by { assert s[1..][1..] == s[2..]; }
  }

  /**
    The rater threshold is not guaranteed at the end: with both thresholds 2, rater "a"
    keeps two ratings through the rater pass, then loses one when the second note pass
    removes note 2 (whose other rater "c" was removed), and ends with a single rating.
   */
  lemma RaterMayEndBelowThreshold(a1: Rating, b1: Rating, d1: Rating, a2: Rating, c2: Rating, b3: Rating, d3: Rating)
    requires a1.raterParticipantId == a2.raterParticipantId == "a"
    requires b1.raterParticipantId == b3.raterParticipantId == "b"
    requires c2.raterParticipantId == "c"
    requires d1.raterParticipantId == d3.raterParticipantId == "d"
    requires a1.noteId == b1.noteId == d1.noteId == 1
    requires a2.noteId == c2.noteId == 2
    requires b3.noteId == d3.noteId == 3
    ensures var out := FilterRatingsForTraining([a1, b1, d1, a2, c2, b3, d3], 2, 2);
      out == [a1, b1, d1, b3, d3] && RaterRatingCount(out, "a") == 1
  {
    var input := [a1, b1, d1, a2, c2, b3, d3];
    NoteCountsOfExample(input);
    NotePassKeepsAll(input, input, 2);
    assert FilterRatingsOnNotesWithMinimalNumRatings(input, 2) == input;
    RaterPassOfExample(input);
    var afterRaters := [a1, b1, d1, a2, b3, d3];
    assert FilterRatingsFromRatersWithMinimalNumRatings(input, 2) == afterRaters;
    SecondNotePassOfExample(afterRaters);
    var out := [a1, b1, d1, b3, d3];
    assert FilterRatingsOnNotesWithMinimalNumRatings(afterRaters, 2) == out;
    RaterCountOfExampleOutput(out);
  }
}
