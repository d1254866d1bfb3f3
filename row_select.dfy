/** The per-file row selectors: the most complete row (`row_with_most_non_nans`),
    the null-threshold drop (`exclude_rows_with_x_nans`) and `dropna()`. */
module RowSelect {
  import opened Results
  import opened JsonValues
  import opened Frames

  /** Row `k` has the most non-null cells and no earlier row has as many:
      the row `idxmax` picks from the non-null counts. */
  ghost predicate IsFirstFullest(rows: seq<Row>, k: int) {
    && 0 <= k < |rows|
    && (forall j :: 0 <= j < |rows| ==> NonNullCount(rows[j]) <= NonNullCount(rows[k]))
    && (forall j :: 0 <= j < k ==> NonNullCount(rows[j]) < NonNullCount(rows[k]))
  }

  /** `non_nan_counts.idxmax()` over a non-empty frame. */
  function IdxMax(rows: seq<Row>): (k: nat)
    requires |rows| > 0
    ensures IsFirstFullest(rows, k)
    decreases |rows|
  {
    if |rows| == 1 then 0
    else
      var n := |rows| - 1;
      assert forall j :: 0 <= j < n ==> rows[..n][j] == rows[j];
      var k := IdxMax(rows[..n]);
      if NonNullCount(rows[n]) > NonNullCount(rows[k]) then n else k
  }

  /** `row_with_most_non_nans`: a one-row frame holding, unchanged, the first
      row with the largest number of non-null cells; `idxmax` raises on a
      frame without rows. */
  function RowWithMostNonNulls(f: Frame): (r: Result<Frame>)
    ensures r.Ok? <==> |f.rows| > 0
    ensures r.Err? ==> r.error == EmptySeries
    ensures r.Ok? ==> exists k :: IsFirstFullest(f.rows, k) && r.value == Frame(f.columns, [f.rows[k]])
  {
    if |f.rows| == 0 then Err(EmptySeries)
    else
      var k := IdxMax(f.rows);
      Ok(Frame(f.columns, [f.rows[k]]))
  }

  /** The row kept from a frame built from records is the extracted row of
      one of them, and no record yields a row with more non-null cells. */
  lemma FullestRecord(records: seq<Json>, columns: seq<string>, extract: Json -> Result<Row>)
    requires RecordsToFrame(records, columns, extract).Ok?
    requires RowWithMostNonNulls(RecordsToFrame(records, columns, extract).value).Ok?
    ensures var kept := RowWithMostNonNulls(RecordsToFrame(records, columns, extract).value).value;
            && |kept.rows| == 1
            && (exists k :: 0 <= k < |records| && extract(records[k]) == Ok(kept.rows[0]))
            && forall j :: 0 <= j < |records| ==> NonNullCount(extract(records[j]).value) <= NonNullCount(kept.rows[0])
  {
    var df := RecordsToFrame(records, columns, extract).value;
    var kept := RowWithMostNonNulls(df).value;
    var k :| IsFirstFullest(df.rows, k) && kept == Frame(df.columns, [df.rows[k]]);
    assert extract(records[k]) == Ok(kept.rows[0]);
    forall j | 0 <= j < |records|
      ensures NonNullCount(extract(records[j]).value) <= NonNullCount(kept.rows[0])
    {
      assert extract(records[j]).value == df.rows[j];
    }
  }

  /** The row that `idxmax` picks is unique: ties go to the earliest row. */
  lemma FirstFullestUnique(rows: seq<Row>, k: int, k': int)
    requires IsFirstFullest(rows, k) && IsFirstFullest(rows, k')
    ensures k == k'
  {
    assert NonNullCount(rows[k]) == NonNullCount(rows[k']);
  }

  /** `exclude_rows_with_x_nans(df, x)`, that is `df.dropna(thresh=df.shape[1] - x)`. */
  function ExcludeRowsWithXNulls(f: Frame, x: int): (r: Frame)
    ensures r.columns == f.columns
    ensures forall i :: 0 <= i < |r.rows| ==> NonNullCount(r.rows[i]) >= |f.columns| - x
    ensures SubsequenceOf(r.rows, f.rows)
  {
    Frame(f.columns, Filter(f.rows, AtLeastNonNull(|f.columns| - x)))
  }

  /** In a frame whose rows all have one cell per column, the threshold
      `shape[1] - x` on non-null cells is the bound `x` on null cells: every
      copy of a row with at most `x` missing cells stays, and no other row does. */
  lemma ExcludeKeepsAtMostXNulls(f: Frame, x: int, row: Row)
    requires Rectangular(f)
    ensures multiset(ExcludeRowsWithXNulls(f, x).rows)[row]
         == if NullCount(row) <= x then multiset(f.rows)[row] else 0
  {
    FilterMultiplicity(f.rows, AtLeastNonNull(|f.columns| - x), row);
    if row in f.rows {
      CountsPartition(row);
    }
  }

  /** Dropping twice with the same bound drops nothing more. */
  lemma ExcludeIdempotent(f: Frame, x: int)
    ensures ExcludeRowsWithXNulls(ExcludeRowsWithXNulls(f, x), x) == ExcludeRowsWithXNulls(f, x)
  {
    FilterIdempotent(f.rows, AtLeastNonNull(|f.columns| - x));
  }

  /** With `x` at least the number of columns, every row is kept. */
  lemma ExcludeKeepsEverything(f: Frame, x: int)
    requires Rectangular(f) && x >= |f.columns|
    ensures ExcludeRowsWithXNulls(f, x) == f
  {
    FilterKeepsAll(f.rows, AtLeastNonNull(|f.columns| - x));
  }

  /** `df.dropna()`: keep exactly the rows without a missing cell. */
  function DropNulls(f: Frame): (r: Frame)
    ensures r.columns == f.columns
    ensures forall i :: 0 <= i < |r.rows| ==> NoNulls(r.rows[i])
    ensures SubsequenceOf(r.rows, f.rows)
  {
    Frame(f.columns, Filter(f.rows, NoneMissing))
  }

  /** Every copy of a complete row survives `dropna()`, and no other row does. */
  lemma DropNullsKeepsComplete(f: Frame, row: Row)
    ensures multiset(DropNulls(f).rows)[row] == if NoNulls(row) then multiset(f.rows)[row] else 0
  {
    FilterMultiplicity(f.rows, NoneMissing, row);
  }

  /** Dropping rows keeps a frame's shape. */
  lemma DropNullsShaped(f: Frame, columns: seq<string>)
    requires Shaped(f, columns)
    ensures Shaped(DropNulls(f), columns)
  {
    FilterFrom(f.rows, NoneMissing);
  }

  /** With `x == 0` the threshold drop is `dropna()`: only fully populated rows stay. */
  lemma ExcludeZeroIsDropNulls(f: Frame)
    requires Rectangular(f)
    ensures ExcludeRowsWithXNulls(f, 0) == DropNulls(f)
  {
    forall i | 0 <= i < |f.rows|
      ensures Passes(AtLeastNonNull(|f.columns|), f.rows[i]) == NoNulls(f.rows[i])
    {
      FullRowHasNoNulls(f.rows[i]);
    }
    FilterCongruent(f.rows, AtLeastNonNull(|f.columns|), NoneMissing);
  }
}
