/** How the loader cuts the rows into batches and what it sends for each cell
    (xlsx2table.py:107-120): batches of 5000 rows, `[start, end)` with
    `start = b * 5000` and `end = min(start + 5000, total_rows)`, and every empty
    cell sent as NULL. */
module Batching {

  const BatchSize: nat := 5000

  /** `(total_rows + batch_size - 1) // batch_size` */
  function BatchCount(total: nat): nat {
    (total + BatchSize - 1) / BatchSize
  }

  function BatchStart(b: nat): nat {
    b * BatchSize
  }

  /** `min(start + batch_size, total_rows)` */
  function BatchEnd(b: nat, total: nat): nat {
    if BatchStart(b) + BatchSize <= total then BatchStart(b) + BatchSize else total
  }

  /** The batch count is the ceiling of `total / 5000`. */
  lemma BatchCountIsCeiling(total: nat)
    ensures BatchCount(total) * BatchSize >= total
    ensures BatchCount(total) == 0 || (BatchCount(total) - 1) * BatchSize < total
    ensures BatchCount(total) == 0 <==> total == 0
  {
  }

  /** Every batch is non-empty and holds at most 5000 rows; each batch but the last
      is full and ends where the next one starts; the last one ends at the total. */
  lemma BatchBounds(b: nat, total: nat)
    requires b < BatchCount(total)
    ensures BatchStart(b) < BatchEnd(b, total) <= BatchStart(b) + BatchSize
    ensures b + 1 < BatchCount(total) ==>
      BatchEnd(b, total) == BatchStart(b + 1) && BatchEnd(b, total) - BatchStart(b) == BatchSize
    ensures b + 1 == BatchCount(total) ==> BatchEnd(b, total) == total
  {
    BatchCountIsCeiling(total);
  }

  /** Each row index lies in exactly one batch: batch `i / 5000`. */
  lemma ExactlyOneBatch(i: nat, total: nat)
    requires i < total
    ensures i / BatchSize < BatchCount(total)
    ensures BatchStart(i / BatchSize) <= i < BatchEnd(i / BatchSize, total)
    ensures forall b: nat :: BatchStart(b) <= i < BatchEnd(b, total) ==> b == i / BatchSize
  {
    BatchCountIsCeiling(total);
    forall b: nat | BatchStart(b) <= i < BatchEnd(b, total) ensures b == i / BatchSize {
      assert b * BatchSize <= i < b * BatchSize + BatchSize;
    }
  }

  /** The rows of batch `b`: `df.iloc[start:end]`. */
  function Batch<T>(rows: seq<T>, b: nat): seq<T>
    requires b < BatchCount(|rows|)
  {
    BatchBounds(b, |rows|);
    rows[BatchStart(b)..BatchEnd(b, |rows|)]
  }

  /** How many rows the first `k` batches hold. */
  function RowsInBatches(k: nat, total: nat): nat {
    if k * BatchSize <= total then k * BatchSize else total
  }

  /** The first `k` batches, one after the other. */
  function Batches<T>(rows: seq<T>, k: nat): seq<T>
    requires k <= BatchCount(|rows|)
  {
    if k == 0 then [] else Batches(rows, k - 1) + Batch(rows, k - 1)
  }

  /** The first `k` batches are exactly the first `min(5000 k, total)` rows, in order. */
  lemma {:induction false} BatchesArePrefix<T>(rows: seq<T>, k: nat)
    requires k <= BatchCount(|rows|)
    ensures Batches(rows, k) == rows[..RowsInBatches(k, |rows|)]
  {
    if k > 0 {
      BatchesArePrefix(rows, k - 1);
      BatchBounds(k - 1, |rows|);
      assert RowsInBatches(k - 1, |rows|) == BatchStart(k - 1);
      assert RowsInBatches(k, |rows|) == BatchEnd(k - 1, |rows|);
      assert rows[..BatchStart(k - 1)] + rows[BatchStart(k - 1)..BatchEnd(k - 1, |rows|)]
        == rows[..BatchEnd(k - 1, |rows|)];
    }
  }

  /** All batches together are all the rows, each once, in their original order. */
  lemma BatchesCoverAll<T>(rows: seq<T>)
    ensures Batches(rows, BatchCount(|rows|)) == rows
  {
    BatchesArePrefix(rows, BatchCount(|rows|));
    BatchCountIsCeiling(|rows|);
    assert rows[..|rows|] == rows;
  }

  /** 12,003 rows make three batches, of 5000, 5000 and 2003 rows. */
  lemma TwelveThousandThreeRows()
    ensures BatchCount(12003) == 3
    ensures BatchEnd(0, 12003) - BatchStart(0) == 5000
    ensures BatchEnd(1, 12003) - BatchStart(1) == 5000
    ensures BatchEnd(2, 12003) - BatchStart(2) == 2003
  {
  }

  // ---------------------------------------------------------------------------
  // Cells

  /** What the driver is handed for one cell: `None` or the cell's text. */
  datatype Cell = Null | Value(text: string)

  type Row = seq<Cell>

  /** `None if v == '' else v` */
  function ToCell(v: string): Cell {
    if v == "" then Null else Value(v)
  }

  /** The text a cell stands for: the empty string for NULL. */
  function CellText(c: Cell): string {
    match c
    case Null => ""
    case Value(s) => s
  }

  /** `tuple(None if v == '' else v for v in row)` */
  function NullRow(row: seq<string>): Row {
    seq(|row|, i requires 0 <= i < |row| => ToCell(row[i]))
  }

  /** Every row of a batch converted, in order. */
  function NullRows(rows: seq<seq<string>>): seq<Row> {
    seq(|rows|, r requires 0 <= r < |rows| => NullRow(rows[r]))
  }

  /** The conversion keeps the row's width, turns exactly the empty cells into NULL,
      never produces an empty text, and loses nothing: reading the cells back gives
      the row. */
  lemma NullRowFaithful(row: seq<string>)
    ensures |NullRow(row)| == |row|
    ensures forall i | 0 <= i < |row| :: NullRow(row)[i] == Null <==> row[i] == ""
    ensures forall i | 0 <= i < |row| :: NullRow(row)[i] != Value("")
    ensures forall i | 0 <= i < |row| :: CellText(NullRow(row)[i]) == row[i]
  {
  }

  /** Rows of `width` cells convert to rows of `width` cells. */
  lemma NullRowsWidth(rows: seq<seq<string>>, width: nat)
    requires forall r | 0 <= r < |rows| :: |rows[r]| == width
    ensures |NullRows(rows)| == |rows|
    ensures forall r | 0 <= r < |rows| :: |NullRows(rows)[r]| == width
  {
  }

  /** Converting a slice is slicing the conversion; converting a concatenation is
      concatenating the conversions. */
  lemma NullRowsSlice(rows: seq<seq<string>>, lo: nat, hi: nat)
    requires lo <= hi <= |rows|
    ensures NullRows(rows[lo..hi]) == NullRows(rows)[lo..hi]
  {
  }

  lemma NullRowsConcat(a: seq<seq<string>>, b: seq<seq<string>>)
    ensures NullRows(a + b) == NullRows(a) + NullRows(b)
  {
  }
}
