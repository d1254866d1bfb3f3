/** Data frames as the scripts build them: an ordered list of column names and
    an ordered list of rows, each row one cell per column. */
module Frames {
  import opened Results
  import opened JsonValues

  type Row = seq<Cell>

  datatype Frame = Frame(columns: seq<string>, rows: seq<Row>)

  /** `pd.DataFrame()`: no columns, no rows. */
  const EmptyFrame: Frame := Frame([], [])

  /** Every row has one cell per column, as in any pandas frame. */
  ghost predicate Rectangular(f: Frame) {
    forall i :: 0 <= i < |f.rows| ==> |f.rows[i]| == |f.columns|
  }

  /** `pd.concat([a, b], ignore_index=True)` for frames whose columns agree
      or of which one has none: the rows of `a`, then those of `b`. */
  function Append(a: Frame, b: Frame): (r: Frame)
    ensures |r.rows| == |a.rows| + |b.rows|
    ensures r.rows[..|a.rows|] == a.rows && r.rows[|a.rows|..] == b.rows
    ensures |a.columns| > 0 ==> r.columns == a.columns
    ensures |a.columns| == 0 ==> r.columns == b.columns
  {
    Frame(if |a.columns| == 0 then b.columns else a.columns, a.rows + b.rows)
  }

  /** Appending is associative, so frames can be appended in any grouping. */
  lemma AppendAssociative(a: Frame, b: Frame, c: Frame)
    ensures Append(Append(a, b), c) == Append(a, Append(b, c))
  {
    assert (a.rows + b.rows) + c.rows == a.rows + (b.rows + c.rows);
  }

  /** `row.notna().sum()`: the cells that are not missing. */
  function NonNullCount(row: Row): (n: nat)
    ensures n <= |row|
  {
    if |row| == 0 then 0 else (if row[0].Some? then 1 else 0) + NonNullCount(row[1..])
  }

  /** `row.isna().sum()`: the missing cells. */
  function NullCount(row: Row): nat {
    if |row| == 0 then 0 else (if row[0].None? then 1 else 0) + NullCount(row[1..])
  }

  /** No cell of the row is missing. */
  predicate NoNulls(row: Row) {
    forall i :: 0 <= i < |row| ==> row[i].Some?
  }

  /** Every cell is counted once, as missing or as present. */
  lemma {:induction false} CountsPartition(row: Row)
    ensures NonNullCount(row) + NullCount(row) == |row|
  {
    if |row| > 0 {
      CountsPartition(row[1..]);
    }
  }

  /** A row is fully populated exactly when its non-null count is its length. */
  lemma {:induction false} FullRowHasNoNulls(row: Row)
    ensures NonNullCount(row) == |row| <==> NoNulls(row)
  {
    if |row| > 0 {
      FullRowHasNoNulls(row[1..]);
      if NoNulls(row) {
        assert NoNulls(row[1..]) by {
          forall i | 0 <= i < |row[1..]| ensures row[1..][i].Some? {
            assert row[1..][i] == row[i + 1];
          }
        }
      }
      if NoNulls(row[1..]) && row[0].Some? {
        forall i | 0 <= i < |row| ensures row[i].Some? {
          if i > 0 { assert row[i] == row[1..][i - 1]; }
        }
      }
    }
  }

  // Keeping the rows that pass a test.

  /** The two row tests of `dropna`: at least `thresh` non-null cells
      (`dropna(thresh=...)`), or no missing cell at all (`dropna()`). */
  datatype RowTest = AtLeastNonNull(thresh: int) | NoneMissing

  predicate Passes(t: RowTest, row: Row) {
    match t
    case AtLeastNonNull(thresh) => NonNullCount(row) >= thresh
    case NoneMissing => NoNulls(row)
  }

  /** `a` is `b` with some elements removed, the rest unchanged and in order. */
  ghost predicate SubsequenceOf<T>(a: seq<T>, b: seq<T>)
    decreases |b|
  {
    |a| == 0 || (|b| > 0 && (SubsequenceOf(a, b[1..]) || (a[0] == b[0] && SubsequenceOf(a[1..], b[1..]))))
  }

  /** The rows that pass `t`, in their order: the boolean-mask selection
      `dropna` makes. */
  function Filter(rows: seq<Row>, t: RowTest): (r: seq<Row>)
    ensures forall i :: 0 <= i < |r| ==> Passes(t, r[i])
    ensures SubsequenceOf(r, rows)
    decreases |rows|
  {
    if |rows| == 0 then []
    else if Passes(t, rows[0]) then [rows[0]] + Filter(rows[1..], t) else Filter(rows[1..], t)
  }

  /** Every row that passes is kept as often as it occurs, and no other row
      is: with `SubsequenceOf`, this says exactly which rows `Filter` keeps. */
  lemma {:induction false} FilterMultiplicity(rows: seq<Row>, t: RowTest, row: Row)
    ensures multiset(Filter(rows, t))[row] == if Passes(t, row) then multiset(rows)[row] else 0
    decreases |rows|
  {
    if |rows| > 0 {
      FilterMultiplicity(rows[1..], t, row);
      assert rows == [rows[0]] + rows[1..];
    }
  }

  /** Every kept row is one of the rows filtered. */
  lemma {:induction false} FilterFrom(rows: seq<Row>, t: RowTest)
    ensures forall i :: 0 <= i < |Filter(rows, t)| ==> Filter(rows, t)[i] in rows
    decreases |rows|
  {
    if |rows| > 0 {
      FilterFrom(rows[1..], t);
      assert forall x :: x in rows[1..] ==> x in rows;
    }
  }

  /** Filtering twice with the same test is filtering once. */
  lemma {:induction false} FilterIdempotent(rows: seq<Row>, t: RowTest)
    ensures Filter(Filter(rows, t), t) == Filter(rows, t)
    decreases |rows|
  {
    if |rows| > 0 {
      FilterIdempotent(rows[1..], t);
      if Passes(t, rows[0]) {
        assert ([rows[0]] + Filter(rows[1..], t))[1..] == Filter(rows[1..], t);
      }
    }
  }

  /** A test every row passes keeps them all. */
  lemma {:induction false} FilterKeepsAll(rows: seq<Row>, t: RowTest)
    requires forall i :: 0 <= i < |rows| ==> Passes(t, rows[i])
    ensures Filter(rows, t) == rows
    decreases |rows|
  {
    if |rows| > 0 {
      FilterKeepsAll(rows[1..], t);
      assert rows == [rows[0]] + rows[1..];
    }
  }

  /** Two tests that agree on every row select the same rows. */
  lemma {:induction false} FilterCongruent(rows: seq<Row>, t: RowTest, u: RowTest)
    requires forall i :: 0 <= i < |rows| ==> Passes(t, rows[i]) == Passes(u, rows[i])
    ensures Filter(rows, t) == Filter(rows, u)
    decreases |rows|
  {
    if |rows| > 0 {
      FilterCongruent(rows[1..], t, u);
    }
  }

  // Turning the records of the payload into rows.

  /** The rows for `records`, one per record in order, or the failure of the
      first record whose extraction raises. */
  function ExtractAll(records: seq<Json>, extract: Json -> Result<Row>): (r: Result<seq<Row>>)
    ensures r.Ok? <==> forall i :: 0 <= i < |records| ==> extract(records[i]).Ok?
    ensures r.Ok? ==> |r.value| == |records|
    ensures r.Ok? ==> forall i :: 0 <= i < |records| ==> extract(records[i]) == Ok(r.value[i])
    ensures r.Err? ==> exists i :: 0 <= i < |records| && extract(records[i]) == Err(r.error)
                                   && forall j :: 0 <= j < i ==> extract(records[j]).Ok?
    decreases |records|
  {
    if |records| == 0 then Ok([])
    else
      var n := |records| - 1;
      assert forall i :: 0 <= i < n ==> records[..n][i] == records[i];
      var rows :- ExtractAll(records[..n], extract);
      var row :- extract(records[n]);
      Ok(rows + [row])
  }

  /** A frame built row by row onto `pd.DataFrame()`: it takes its columns
      from the first row, so a frame with no rows has no columns either. */
  function RecordsToFrame(records: seq<Json>, columns: seq<string>, extract: Json -> Result<Row>): (r: Result<Frame>)
    ensures r.Ok? <==> forall i :: 0 <= i < |records| ==> extract(records[i]).Ok?
    ensures r.Ok? ==> r.value.columns == (if |records| == 0 then [] else columns)
    ensures r.Ok? ==> |r.value.rows| == |records|
    ensures r.Ok? ==> forall i :: 0 <= i < |records| ==> extract(records[i]) == Ok(r.value.rows[i])
    ensures r.Err? ==> ExtractAll(records, extract) == Err(r.error)
  {
    var rows :- ExtractAll(records, extract);
    Ok(Frame(if |rows| == 0 then [] else columns, rows))
  }

  /** The loop of `read_html_file`: one extracted row per record, concatenated
      onto the frame in the order of the records; an exception raised while
      reading a record ends the call. */
  method CollectRows(records: seq<Json>, columns: seq<string>, extract: Json -> Result<Row>)
    returns (r: Result<Frame>)
    ensures r == RecordsToFrame(records, columns, extract)
  {
    var df := EmptyFrame;
    var iteration := 0;
    var length := |records|;
    while iteration < length
      invariant 0 <= iteration <= length
      invariant df.columns == if iteration == 0 then [] else columns
      invariant ExtractAll(records[..iteration], extract) == Ok(df.rows)
    {
      var row := extract(records[iteration]);
      if row.Err? {
        assert forall j :: 0 <= j < iteration ==> extract(records[j]).Ok? by {
          forall j | 0 <= j < iteration ensures extract(records[j]).Ok? {
            assert records[..iteration][j] == records[j];
          }
        }
        return Err(row.error);
      }
      assert records[..iteration + 1][..iteration] == records[..iteration];
      df := Append(df, Frame(columns, [row.value]));
      iteration := iteration + 1;
    }
    assert records[..iteration] == records;
    r := Ok(df);
  }

  // From a located payload to a frame.

  /** The records `read_html_file` walks over: `js["included"]` of the
      located payload; a failure to locate the payload comes first. */
  function PayloadRecords(payload: Result<Json>): Result<seq<Json>> {
    var js :- payload;
    Included(js)
  }

  /** `read_html_file` once the payload is located: one row per record, in
      record order. A failure to locate or walk the payload ends the call
      before any row is built, and so does the first record that raises. */
  function PayloadFrame(payload: Result<Json>, columns: seq<string>, extract: Json -> Result<Row>): (r: Result<Frame>)
    ensures PayloadRecords(payload).Err? ==> r == Err(PayloadRecords(payload).error)
    ensures PayloadRecords(payload).Ok? ==>
              (r.Ok? <==> forall i :: 0 <= i < |PayloadRecords(payload).value| ==> extract(PayloadRecords(payload).value[i]).Ok?)
    ensures r.Ok? ==> PayloadRecords(payload).Ok?
                      && |r.value.rows| == |PayloadRecords(payload).value|
                      && forall i :: 0 <= i < |r.value.rows| ==> extract(PayloadRecords(payload).value[i]) == Ok(r.value.rows[i])
    ensures r.Ok? ==> r.value.columns == if |r.value.rows| == 0 then [] else columns
  {
    var records :- PayloadRecords(payload);
    RecordsToFrame(records, columns, extract)
  }

  /** The imperative `read_html_file` once the payload is located. */
  method BuildFrame(payload: Result<Json>, columns: seq<string>, extract: Json -> Result<Row>) returns (r: Result<Frame>)
    ensures r == PayloadFrame(payload, columns, extract)
  {
    if payload.Err? {
      return Err(payload.error);
    }
    var records := Included(payload.value);
    if records.Err? {
      return Err(records.error);
    }
    r := CollectRows(records.value, columns, extract);
  }

  // Appending the frames read from several files.

  /** Every row has one cell per column, and a frame without columns has
      no rows: the frame is `pd.DataFrame()` or has exactly `columns`. */
  ghost predicate Shaped(f: Frame, columns: seq<string>) {
    (f.columns == [] && f.rows == []) || (f.columns == columns && Rectangular(f))
  }

  /** No row of the frame has a missing cell. */
  ghost predicate Complete(f: Frame) {
    forall i :: 0 <= i < |f.rows| ==> NoNulls(f.rows[i])
  }

  /** The frames read from several files, appended in file order onto
      `pd.DataFrame()`; the first file whose reading failed ends the run. */
  function AppendAll(files: seq<Result<Frame>>): (r: Result<Frame>)
    ensures r.Ok? <==> forall k :: 0 <= k < |files| ==> files[k].Ok?
    ensures r.Err? ==> exists k :: 0 <= k < |files| && files[k] == Err(r.error)
                                   && forall j :: 0 <= j < k ==> files[j].Ok?
    decreases |files|
  {
    if |files| == 0 then Ok(EmptyFrame)
    else
      var n := |files| - 1;
      assert forall k :: 0 <= k < n ==> files[..n][k] == files[k];
      var data :- AppendAll(files[..n]);
      var f :- files[n];
      Ok(Append(data, f))
  }

  /** One more file: its frame is appended, or its failure ends the run. */
  lemma AppendAllStep(files: seq<Result<Frame>>, k: nat)
    requires k < |files|
    ensures AppendAll(files[..k + 1])
         == match AppendAll(files[..k])
            case Err(e) => Err(e)
            case Ok(data) =>
              match files[k]
              case Err(e) => Err(e)
              case Ok(f) => Ok(Append(data, f))
  {
    assert files[..k + 1][..k] == files[..k];
  }

  /** A file that fails after files that were all read ends the run with its error. */
  lemma AppendAllStopsAt(files: seq<Result<Frame>>, k: nat)
    requires k < |files| && AppendAll(files[..k]).Ok? && files[k].Err?
    ensures AppendAll(files) == Err(files[k].error)
  {
    forall j | 0 <= j < k ensures files[j].Ok? {
      assert files[..k][j] == files[j];
    }
    AppendAllFirstError(files, k);
  }

  /** The run fails with the error of the first file that failed. */
  lemma AppendAllFirstError(files: seq<Result<Frame>>, k: nat)
    requires k < |files| && files[k].Err?
    requires forall j :: 0 <= j < k ==> files[j].Ok?
    ensures AppendAll(files) == Err(files[k].error)
  {
    var i :| 0 <= i < |files| && files[i] == Err(AppendAll(files).error)
             && forall j :: 0 <= j < i ==> files[j].Ok?;
    assert i == k;
  }

  /** Appending onto `pd.DataFrame()` gives the frame back. */
  lemma AppendAllOne(file: Result<Frame>)
    ensures AppendAll([file]) == file
  {
    assert [file][..0] == [];
    match file
    case Err(_) =>
    case Ok(f) => assert Append(EmptyFrame, f) == f;
  }

  /** Appending the results of `a` and then of `b` is appending the two
      combined frames; a failure in `a` wins over one in `b`. */
  lemma {:induction false} AppendAllConcat(a: seq<Result<Frame>>, b: seq<Result<Frame>>)
    ensures AppendAll(a + b)
         == match AppendAll(a)
            case Err(e) => Err(e)
            case Ok(fa) =>
              match AppendAll(b)
              case Err(e) => Err(e)
              case Ok(fb) => Ok(Append(fa, fb))
    decreases |b|
  {
    if |b| == 0 {
      assert a + b == a;
      match AppendAll(a)
      case Err(_) =>
      case Ok(fa) => assert Append(fa, EmptyFrame) == fa;
    } else {
      var n := |b| - 1;
      assert (a + b)[..|a + b| - 1] == a + b[..n];
      assert (a + b)[|a + b| - 1] == b[n];
      AppendAllConcat(a, b[..n]);
      match AppendAll(a)
      case Err(_) =>
      case Ok(fa) =>
        match AppendAll(b[..n])
        case Err(_) =>
        case Ok(fb) =>
          match b[n]
          case Err(_) =>
          case Ok(f) => AppendAssociative(fa, fb, f);
    }
  }

  /** Appending two frames of the same shape and without missing cells
      gives one of that shape and without missing cells. */
  lemma AppendShaped(a: Frame, b: Frame, columns: seq<string>)
    requires Shaped(a, columns) && Complete(a) && Shaped(b, columns) && Complete(b)
    ensures Shaped(Append(a, b), columns) && Complete(Append(a, b))
  {
    var c := Append(a, b);
    forall i | 0 <= i < |c.rows|
      ensures c.rows[i] == if i < |a.rows| then a.rows[i] else b.rows[i - |a.rows|]
    {
    }
  }

  /** The shape and completeness every file's frame has, the appended
      frame has too. */
  lemma {:induction false} AppendAllShaped(files: seq<Result<Frame>>, columns: seq<string>)
    requires forall k :: 0 <= k < |files| && files[k].Ok? ==> Shaped(files[k].value, columns) && Complete(files[k].value)
    ensures AppendAll(files).Ok? ==> Shaped(AppendAll(files).value, columns) && Complete(AppendAll(files).value)
    decreases |files|
  {
    if |files| > 0 {
      var n := |files| - 1;
      assert forall k :: 0 <= k < n ==> files[..n][k] == files[k];
      AppendAllShaped(files[..n], columns);
      if AppendAll(files).Ok? {
        AppendShaped(AppendAll(files[..n]).value, files[n].value, columns);
      }
    }
  }
}
