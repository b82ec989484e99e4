/**
 Tabular data as the importer handles it: a parsed data frame (header plus
 rows) and the synthetic 1-based `id` key prepended at load time.
 */
module Tables {
  import opened Wrappers

  /** One field value. Type inference of the parser is abstracted to
      integers, text and the missing value. */
  datatype Cell = Int(n: int) | Text(t: string) | Null

  type Row = seq<Cell>

  /** A header of column names and the rows under it, in source order. */
  datatype Table = Table(columns: seq<string>, rows: seq<Row>)

  /** Name of the synthetic key column. */
  const IdColumn: string := "id"

  /** Prepends the key `first + i` to row `i`: the column built from
      `range(first, first + len(rows))`. */
  function WithIds(rows: seq<Row>, first: int): (r: seq<Row>)
    ensures |r| == |rows|
    ensures forall i :: 0 <= i < |r| ==> r[i] == [Int(first + i)] + rows[i]
    decreases |rows|
  {
    if |rows| == 0 then [] else [[Int(first)] + rows[0]] + WithIds(rows[1..], first + 1)
  }

  /** The key column of a keyed table: the first cell of every row. */
  function Keys(rows: seq<Row>): (ks: seq<Cell>)
    requires forall i :: 0 <= i < |rows| ==> |rows[i]| > 0
    ensures |ks| == |rows|
    ensures forall i :: 0 <= i < |rows| ==> ks[i] == rows[i][0]
  {
    seq(|rows|, i requires 0 <= i < |rows| => rows[i][0])
  }

  /** Drops the key column again: the inverse of `WithIds`. */
  function StripKeys(rows: seq<Row>): (r: seq<Row>)
    requires forall i :: 0 <= i < |rows| ==> |rows[i]| > 0
    ensures |r| == |rows|
    ensures forall i :: 0 <= i < |rows| ==> [rows[i][0]] + r[i] == rows[i]
  {
    seq(|rows|, i requires 0 <= i < |rows| => rows[i][1..])
  }

  /** Keys a parsed table: a new first column `id` numbering the rows from 1.
      Fails, as the data-frame insertion does, when the header already has a
      column called `id`. */
  function AddIdColumn(t: Table): (r: Option<Table>)
    ensures r.Some? <==> IdColumn !in t.columns
    ensures r.Some? ==> r.value.columns == [IdColumn] + t.columns
    ensures r.Some? ==> |r.value.rows| == |t.rows|
    ensures r.Some? ==> forall i :: 0 <= i < |t.rows| ==>
              r.value.rows[i] == [Int(i + 1)] + t.rows[i]
  {
    if IdColumn in t.columns then None
    else Some(Table([IdColumn] + t.columns, WithIds(t.rows, 1)))
  }

  /** Removing the key column gives back exactly the source rows. */
  lemma StripKeysAfterWithIds(rows: seq<Row>, first: int)
    ensures var keyed := WithIds(rows, first);
            (forall i :: 0 <= i < |keyed| ==> |keyed[i]| > 0) && StripKeys(keyed) == rows
  {
    var keyed := WithIds(rows, first);
    forall i | 0 <= i < |keyed|
      ensures StripKeys(keyed)[i] == rows[i]
    {
      assert keyed[i] == [Int(first + i)] + rows[i];
      assert [keyed[i][0]] + StripKeys(keyed)[i] == keyed[i];
    }
  }

  /** The key column of a freshly loaded table is exactly 1, 2, ..., N. */
  lemma KeysAreOneToN(rows: seq<Row>)
    ensures var keyed := WithIds(rows, 1);
            (forall i :: 0 <= i < |keyed| ==> |keyed[i]| > 0)
            && Keys(keyed) == seq(|rows|, i => Int(i + 1))
  {
  }

  /** Keys are strictly increasing, hence unique within a table. */
  lemma KeysStrictlyIncrease(rows: seq<Row>, i: int, j: int)
    requires 0 <= i < j < |rows|
    ensures WithIds(rows, 1)[i][0].n < WithIds(rows, 1)[j][0].n
  {
  }
}
