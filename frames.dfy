/** The slice of pandas that the generated routine and the oracle test use: a
    DataFrame as a value (column names plus rectangular rows of possibly-missing
    string cells) and the `DataFrame(list_of_lists, columns=...)` constructor. */
module Frames {

  datatype Option<+T> = None | Some(value: T)

  /** A Python call that either returns a value or raises an exception. */
  datatype Outcome<+T> = Returned(value: T) | Raised

  /** A DataFrame cell: a string, or pandas' missing value (`None`/`NaN`). */
  type Cell = Option<string>

  datatype Table = Table(columns: seq<string>, rows: seq<seq<Cell>>)

  /** Every row has one cell per column. */
  predicate Rectangular(t: Table) {
    forall r | r in t.rows :: |r| == |t.columns|
  }

  type Frame = t: Table | Rectangular(t) witness Table([], [])

  predicate Distinct(names: seq<string>) {
    forall i, j | 0 <= i < j < |names| :: names[i] != names[j]
  }

  /** `pd.DataFrame(columns=columns)`: no rows. */
  function EmptyFrame(columns: seq<string>): (f: Frame)
    ensures f.columns == columns && f.rows == []
  {
    Table(columns, [])
  }

  /** The length of the longest row (0 for no rows). */
  function MaxWidth<T>(rows: seq<seq<T>>): (w: nat)
    ensures forall k | 0 <= k < |rows| :: |rows[k]| <= w
    ensures rows != [] ==> exists k | 0 <= k < |rows| :: |rows[k]| == w
  {
    if rows == [] then 0
    else
      var w := MaxWidth(rows[1..]);
      assert forall k | 1 <= k < |rows| :: rows[k] == rows[1..][k - 1];
      if |rows[0]| > w then |rows[0]| else w
  }

  /** A row padded with missing values up to `width` cells. */
  function Pad(row: seq<string>, width: nat): (r: seq<Cell>)
    requires |row| <= width
    ensures |r| == width
    ensures forall j | 0 <= j < width :: r[j] == if j < |row| then Some(row[j]) else None
  {
    if width == 0 then []
    else if |row| == width then Pad(row[..width - 1], width - 1) + [Some(row[width - 1])]
    else Pad(row, width - 1) + [None]
  }

  /** `pd.DataFrame(rows, columns=columns)` for a list of lists of strings. pandas
      widens every row to the longest one, filling with missing values, and raises
      `ValueError` when that width is not the number of column names; no rows at
      all give an empty frame with those columns. */
  function FromRows(columns: seq<string>, rows: seq<seq<string>>): (o: Outcome<Frame>)
    ensures o.Returned? <==> (rows == [] || MaxWidth(rows) == |columns|)
    ensures o.Returned? ==> o.value.columns == columns && |o.value.rows| == |rows|
    ensures o.Returned? ==> forall i, j | 0 <= i < |rows| && 0 <= j < |columns| ::
      o.value.rows[i][j] == if j < |rows[i]| then Some(rows[i][j]) else None
  {
    if rows == [] then Returned(EmptyFrame(columns))
    else if MaxWidth(rows) != |columns| then Raised
    else
      var width := |columns|;
      var cells := seq(|rows|, i requires 0 <= i < |rows| => Pad(rows[i], width));
      assert forall r | r in cells :: |r| == width;
      Returned(Table(columns, cells))
  }

  /** Index of the first label equal to `name`: where pandas finds a column by name. */
  function FirstIndex(names: seq<string>, name: string): (k: nat)
    requires name in names
    ensures k < |names| && names[k] == name
    ensures forall j | 0 <= j < k :: names[j] != name
  {
    if names[0] == name then 0 else 1 + FirstIndex(names[1..], name)
  }

  /** The text of an optional string, "" when it is missing (`x or ""`, `fillna("")`). */
  function OrEmpty(t: Option<string>): string {
    if t.Some? then t.value else ""
  }
}
