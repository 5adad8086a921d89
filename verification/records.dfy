/**
  The rows of the four input tables. A missing cell (NaN) is `None`; columns the
  pipeline never inspects are kept, opaquely, in `otherColumns`, so that two rows
  are equal exactly when every column is equal (as `drop_duplicates` compares them).
 */
module Records {
  import opened Results

  /** A tweet identifier: numeric as parsed, or text once coerced with `astype(str)`. */
  datatype TweetId = NumericTweetId(n: int) | TextTweetId(text: string)

  datatype Note = Note(noteId: int, tweetId: TweetId, createdAtMillis: int, otherColumns: seq<string>)

  /** The verdict a note reached; any label other than the two named ones is kept as text. */
  datatype Classification = Misleading | NotMisleading | OtherClassification(text: string)

  /** A row of note status history, after its merge with note information. */
  datatype NoteStatus = NoteStatus(
    noteId: int,
    createdAtMillis: Option<int>,
    classification: Option<Classification>,
    otherColumns: seq<string>)

  /** The three answers of the newer rating form; any other label is kept as text. */
  datatype HelpfulnessLevel = NotHelpfulValue | SomewhatHelpfulValue | HelpfulValue | OtherLevel(text: string)

  /**
    A rating. `helpful` and `notHelpful` are the legacy 0/1 answers; `helpfulNum`
    is the unified helpfulness in half units (0, 1, 2 stand for 0, 0.5, 1).
   */
  datatype Rating = Rating(
    raterParticipantId: string,
    noteId: int,
    createdAtMillis: int,
    helpful: Option<int>,
    notHelpful: Option<int>,
    helpfulnessLevel: Option<HelpfulnessLevel>,
    helpfulNum: Option<int>,
    otherColumns: seq<string>)

  datatype UserEnrollment = UserEnrollment(participantId: string, otherColumns: seq<string>)

  /** The primary key of the notes table. */
  function NoteKey(n: Note): int {
    n.noteId
  }

  /** The composite primary key of the ratings table. */
  function RatingKey(r: Rating): (string, int) {
    (r.raterParticipantId, r.noteId)
  }

  /** The key note status history is joined on. */
  function StatusKey(s: NoteStatus): int {
    s.noteId
  }
}
