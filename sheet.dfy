/** The contact spreadsheet as the program sees it after loading. */
module Sheet {

  /** Column names in order and rows of cell text (every cell already turned into a string). */
  datatype Table = Table(columns: seq<string>, rows: seq<seq<string>>)
  {
    /** Column names are distinct (the spreadsheet loader renames repeated headers) and every
        row has one cell per column. */
    predicate Valid()
    {
      && (forall i, j :: 0 <= i < j < |columns| ==> columns[i] != columns[j])
      && (forall r :: 0 <= r < |rows| ==> |rows[r]| == |columns|)
    }
  }

  /** How many leading cells of a column the content vote looks at (`head(5)`). */
  const SampleSize: nat := 5

  /** The cells of column `j`, top to bottom. */
  function Cells(t: Table, j: nat): seq<string>
    requires t.Valid() && j < |t.columns|
  {
    seq(|t.rows|, r requires 0 <= r < |t.rows| => t.rows[r][j])
  }

  /** The first `SampleSize` cells of column `j`, or all of them when the table is shorter. */
  function Sample(t: Table, j: nat): (s: seq<string>)
    requires t.Valid() && j < |t.columns|
    ensures |s| == if |t.rows| <= SampleSize then |t.rows| else SampleSize
    ensures forall r :: 0 <= r < |s| ==> s[r] == t.rows[r][j]
  {
    var cells := Cells(t, j);
    if |cells| <= SampleSize then cells else cells[..SampleSize]
  }

  /** Position of the column called `c`: the first one with that name, or `|cols|` when none is. */
  function IndexOf(cols: seq<string>, c: string): (i: nat)
    ensures i <= |cols|
    ensures i < |cols| ==> cols[i] == c
    ensures forall j :: 0 <= j < i ==> cols[j] != c
    ensures c in cols ==> i < |cols|
  {
    if |cols| == 0 then 0
    else if cols[0] == c then 0
    else 1 + IndexOf(cols[1..], c)
  }
}
