/**
  The base TSV reader: a file is first parsed as headerless, with the schema's column
  names forced onto it; only if that parse raises a `ValueError` is it parsed again with
  its first line taken as the header, and then the columns read must be exactly the
  schema's columns. The parser itself (pandas' `read_csv`) is a parameter.
 */
module TsvReaders {
  import opened Results

  /** A column's declared type in a schema; the parser is what interprets it. */
  datatype ColumnType = IntColumn | StringColumn | FloatColumn | OtherColumnType(name: string)

  /** One entry of a datatype mapping: a column name and its type. */
  datatype Field = Field(name: string, columnType: ColumnType)

  /** A datatype mapping, in its insertion order. */
  type Schema = seq<Field>

  /** A mapping has each key once. */
  predicate WellFormedSchema(schema: Schema) {
    forall i, j :: 0 <= i < j < |schema| ==> schema[i].name != schema[j].name
  }

  /** The arguments of one call of the parser. `names` is given only when the column names are forced. */
  datatype ParseRequest = ParseRequest(path: string, separator: string, dtypes: Schema, names: Option<seq<string>>)

  /** A parsed table: its column labels and its rows, already decoded to records. */
  datatype Table<R> = Table(columns: seq<string>, rows: seq<R>)

  /** What the parser does: returns a table, raises `ValueError`, or raises any other error. */
  datatype ParseAttempt<R> = Parsed(table: Table<R>) | ValueError(message: string) | OtherError(message: string)

  /** Why a read failed. */
  datatype ReadError =
    | HeaderlessParseFailed(message: string)
    | HeaderParseFailed(message: string)
    | ColumnMismatch(path: string, extra: set<string>, missing: set<string>)

  /** The columns named by a sequence of labels, as a set. */
  function LabelSet(labels: seq<string>): (s: set<string>)
    ensures forall x :: x in s <==> x in labels
  {
    set i | 0 <= i < |labels| :: labels[i]
  }

  /** A reader of one file under one datatype mapping. */
  datatype TsvReader = TsvReader(path: string, datatypeMapping: Schema) {

    /** Both attempts split fields on a tab. */
    function Separator(): (sep: string)
      ensures |sep| == 1 && sep[0] == '\t'
    {
      "\t"
    }

    /** The mapping's keys, in the mapping's order. */
    function Columns(): (cols: seq<string>)
      ensures |cols| == |datatypeMapping|
      ensures forall i :: 0 <= i < |cols| ==> cols[i] == datatypeMapping[i].name
    {
      seq(|datatypeMapping|, i requires 0 <= i < |datatypeMapping| => datatypeMapping[i].name)
    }

    /**
      `_verify_read_columns`: passes exactly when the columns read are, as a set,
      the expected ones (order and repetition do not matter); otherwise reports the
      extra columns (read but not expected) and the missing ones (expected but not read).
     */
    function VerifyReadColumns(actual: seq<string>): (o: Outcome<ReadError>)
      ensures o.Pass? <==> LabelSet(actual) == LabelSet(Columns())
      ensures o.Fail? ==> o.error == ColumnMismatch(path,
        LabelSet(actual) - LabelSet(Columns()), LabelSet(Columns()) - LabelSet(actual))
    {
      var a := LabelSet(actual);
      var e := LabelSet(Columns());
      if a != e then Fail(ColumnMismatch(path, a - e, e - a)) else Pass
    }

    /** The first attempt: no header row, the schema's names forced onto the columns. */
    function HeaderlessRequest(): (req: ParseRequest)
      ensures req.path == path && req.separator == "\t" && req.dtypes == datatypeMapping
      ensures req.names == Some(Columns())
    {
      ParseRequest(path, Separator(), datatypeMapping, Some(Columns()))
    }

    /** The fallback attempt: the header row names the columns. */
    function HeaderRequest(): (req: ParseRequest)
      ensures req.path == path && req.separator == "\t" && req.dtypes == datatypeMapping
      ensures req.names.None?
    {
      ParseRequest(path, "\t", datatypeMapping, None)
    }

    /**
      The outcome of `read`, given what the parser does on each request: the
      headerless table when the first parse succeeds, its error when it raises
      anything but `ValueError`, and otherwise the header parse, verified.
     */
    function ReadOutcome<R>(parse: ParseRequest -> ParseAttempt<R>): Result<Table<R>, ReadError> {
      match parse(HeaderlessRequest())
      case Parsed(t) => Success(t)
      case OtherError(m) => Failure(HeaderlessParseFailed(m))
      case ValueError(_) =>
        match parse(HeaderRequest())
        case Parsed(t) =>
          (match VerifyReadColumns(t.columns)
           case Pass => Success(t)
           case Fail(e) => Failure(e))
        case ValueError(m) => Failure(HeaderParseFailed(m))
        case OtherError(m) => Failure(HeaderParseFailed(m))
    }

    /**
      `read`: tries the headerless parse and falls back to the header parse only on
      `ValueError`; the fallback's table is returned only if its columns verify.
     */
    method Read<R>(parse: ParseRequest -> ParseAttempt<R>) returns (r: Result<Table<R>, ReadError>)
      ensures r == ReadOutcome(parse)
      ensures parse(HeaderlessRequest()).Parsed? ==> r == Success(parse(HeaderlessRequest()).table)
      ensures r.Success? && !parse(HeaderlessRequest()).Parsed? ==>
        LabelSet(r.value.columns) == LabelSet(Columns())
    {
      var first := parse(HeaderlessRequest());
      if !first.ValueError? {
        if first.Parsed? {
          return Success(first.table);
        }
        return Failure(HeaderlessParseFailed(first.message));
      }
      var second := parse(HeaderRequest());
      if !second.Parsed? {
        return Failure(HeaderParseFailed(second.message));
      }
      var check := VerifyReadColumns(second.table.columns);
      if check.Fail? {
        return Failure(check.error);
      }
      r := Success(second.table);
    }
  }

  /** With each key once in the mapping, the expected column set has one element per column. */
  lemma {:induction false} ColumnSetSize(reader: TsvReader)
    requires WellFormedSchema(reader.datatypeMapping)
    ensures |LabelSet(reader.Columns())| == |reader.datatypeMapping|
  {
    DistinctLabelSetSize(reader.Columns());
  }

  /** Distinct labels give a set of the same size. */
  lemma {:induction false} DistinctLabelSetSize(labels: seq<string>)
    requires forall i, j :: 0 <= i < j < |labels| ==> labels[i] != labels[j]
    ensures |LabelSet(labels)| == |labels|
  {
    if |labels| > 0 {
      var tail := labels[1..];
      DistinctLabelSetSize(tail);
      assert LabelSet(labels) == {labels[0]} + LabelSet(tail);
      assert labels[0] !in LabelSet(tail) by {
        forall i | 0 <= i < |tail| ensures tail[i] != labels[0] {
          assert tail[i] == labels[i + 1];
        }
      }
    }
  }

  /**
    A reported mismatch is never empty, and the columns read are recovered from it:
    the expected ones minus the missing ones, plus the extra ones.
   */
  lemma ColumnMismatchDescribesActual(reader: TsvReader, actual: seq<string>)
    requires reader.VerifyReadColumns(actual).Fail?
    ensures var e := reader.VerifyReadColumns(actual).error;
      e.ColumnMismatch? && e.path == reader.path
      && e.extra + e.missing != {}
      && e.extra * e.missing == {}
      && LabelSet(actual) == (LabelSet(reader.Columns()) - e.missing) + e.extra
  {
    var a := LabelSet(actual);
    var x := LabelSet(reader.Columns());
    assert a != x;
  }

  /** The columns verify whatever order they come in or however often a label repeats. */
  lemma VerifyIgnoresOrder(reader: TsvReader, actual: seq<string>, permuted: seq<string>)
    requires forall c :: c in actual <==> c in permuted
    ensures reader.VerifyReadColumns(actual) == reader.VerifyReadColumns(permuted)
  {
    assert LabelSet(actual) == LabelSet(permuted);
  }

  /** The header parse is requested only after the headerless parse raised `ValueError`. */
  lemma FallbackOnlyAfterValueError<R>(reader: TsvReader, parse: ParseRequest -> ParseAttempt<R>, other: ParseRequest -> ParseAttempt<R>)
    requires !parse(reader.HeaderlessRequest()).ValueError?
    requires other(reader.HeaderlessRequest()) == parse(reader.HeaderlessRequest())
    ensures reader.ReadOutcome(parse) == reader.ReadOutcome(other)
  {
  }

  /**
    What `read` returns, case by case: the headerless table unverified; the header
    table only when its columns are exactly the schema's; and which error otherwise.
   */
  lemma ReadOutcomeCases<R>(reader: TsvReader, parse: ParseRequest -> ParseAttempt<R>)
    ensures var first := parse(reader.HeaderlessRequest());
      var second := parse(reader.HeaderRequest());
      var r := reader.ReadOutcome(parse);
      && (first.Parsed? ==> r == Success(first.table))
      && (first.OtherError? ==> r == Failure(HeaderlessParseFailed(first.message)))
      && (first.ValueError? && !second.Parsed? ==> r == Failure(HeaderParseFailed(second.message)))
      && (first.ValueError? && second.Parsed? ==>
            (r.Success? <==> LabelSet(second.table.columns) == LabelSet(reader.Columns()))
            && (r.Success? ==> r.value == second.table)
            && (r.Failure? ==> r.error.ColumnMismatch?))
  {
  }
}
