/** The duplicate filter for the notes table. */
module NotesFilters {
  import opened Results
  import opened Tables
  import opened Records

  /**
    Drops exact duplicate notes (first occurrence kept), then fails unless every
    remaining note has its own noteId; the failure reports the number of distinct
    noteIds and the number of notes.
   */
  function FilterDuplicateNotes(notes: seq<Note>): (r: Result<seq<Note>, KeyViolation>)
    ensures r.Success? <==> KeysUnique(DropDuplicates(notes), NoteKey)
    ensures r.Success? ==>
      && r.value == DropDuplicates(notes)
      && NoDuplicates(r.value)
      && |KeySet(r.value, NoteKey)| == |r.value|
    ensures r.Failure? ==>
      r.error == KeyViolation(|KeySet(DropDuplicates(notes), NoteKey)|, |DropDuplicates(notes)|)
  {
    var r := DropDuplicatesRequiringUniqueKey(notes, NoteKey);
    KeyCountIsRowCountIffUnique(DropDuplicates(notes), NoteKey);
    r
  }

  /** Filtering a table the filter has already accepted returns it unchanged. */
  lemma FilterDuplicateNotesIdempotent(notes: seq<Note>)
    requires FilterDuplicateNotes(notes).Success?
    ensures FilterDuplicateNotes(FilterDuplicateNotes(notes).value) == FilterDuplicateNotes(notes)
  {
    var once := FilterDuplicateNotes(notes).value;
    DropDuplicatesOfDistinct(once);
  }

  /** The notes kept are the first occurrences of the distinct input rows, in input order. */
  lemma FilterDuplicateNotesKeepsFirstOccurrences(notes: seq<Note>)
    requires FilterDuplicateNotes(notes).Success?
    ensures var kept := FilterDuplicateNotes(notes).value;
      && (forall i :: 0 <= i < |notes| ==> notes[i] in kept)
      && InFirstOccurrenceOrder(notes, kept)
  {
    DropDuplicatesKeepsFirstOccurrences(notes);
  }
}
