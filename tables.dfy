/** Downloaded tables (the result of `pd.read_html(url)[0]` or
    `pd.read_csv(url)`) and the column probe both universe builders use. */
module Tables {
  import opened Wrappers
  import opened Text

  /** A table: its column names and its rows of cells; a missing cell is `None`. */
  datatype Table = Table(columns: seq<string>, cells: seq<seq<Option<string>>>)
  {
    /** Every row has one cell per column. */
    predicate WellFormed()
    {
      forall i :: 0 <= i < |cells| ==> |cells[i]| == |columns|
    }
  }

  /** What a table reader returns: always rectangular. */
  type Frame = t: Table | t.WellFormed() witness Table([], [])

  /** `astype(str)` of one cell: a missing value prints as `nan`. */
  function CellText(c: Option<string>): string
  {
    if c.None? then "nan" else c.value
  }

  /** The first of `candidates` that names a column, if any. */
  function FirstPresent(candidates: seq<string>, columns: seq<string>): (r: Option<string>)
    ensures r.None? <==> forall c :: c in candidates ==> c !in columns
    ensures r.Some? ==> r.value in columns
    ensures r.Some? ==>
      exists k :: 0 <= k < |candidates| && candidates[k] == r.value && (forall k' :: 0 <= k' < k ==> candidates[k'] !in columns)
    decreases |candidates|
  {
    if candidates == [] then None
    else if candidates[0] in columns then Some(candidates[0])
    else
      var r := FirstPresent(candidates[1..], columns);
      if r.Some? then
        var k :| 1 <= k + 1 < |candidates| && candidates[1..][k] == r.value
          && forall k' :: 0 <= k' < k ==> candidates[1..][k'] !in columns;
        assert forall k' :: 0 <= k' < k + 1 ==> candidates[k'] !in columns by {
          forall k' | 0 <= k' < k + 1 ensures candidates[k'] !in columns {
            if k' > 0 { assert candidates[k'] == candidates[1..][k' - 1]; }
          }
        }
        r
      else r
  }

  /** Position of the first column with a given name. */
  function IndexOf(columns: seq<string>, name: string): (j: nat)
    requires name in columns
    ensures j < |columns| && columns[j] == name
    ensures forall k :: 0 <= k < j ==> columns[k] != name
  {
    if columns[0] == name then 0 else 1 + IndexOf(columns[1..], name)
  }

  /** `df[name].astype(str).str.strip().tolist()`. */
  function StrippedColumn(t: Table, name: string): (values: seq<string>)
    requires t.WellFormed() && name in t.columns
    ensures |values| == |t.cells|
    ensures forall i :: 0 <= i < |t.cells| ==>
      values[i] == Strip(CellText(t.cells[i][IndexOf(t.columns, name)]))
    ensures forall v :: v in values ==> Strip(v) == v
  {
    var j := IndexOf(t.columns, name);
    var values := seq(|t.cells|, i requires 0 <= i < |t.cells| => Strip(CellText(t.cells[i][j])));
    assert forall i :: 0 <= i < |t.cells| ==> Strip(values[i]) == values[i] by {
      forall i | 0 <= i < |t.cells| ensures Strip(values[i]) == values[i] {
        StripIdempotent(CellText(t.cells[i][j]));
      }
    }
    values
  }

  /** Probing `candidates` in order, then taking that column stripped; a
      table with none of them fails, as indexing a missing column raises. */
  function ProbeColumn(t: Table, candidates: seq<string>): (r: Outcome<seq<string>>)
    requires t.WellFormed()
    ensures r.MissingColumn? <==> forall c :: c in candidates ==> c !in t.columns
    ensures r.Ok? ==> exists c :: c in candidates && c in t.columns && r.value == StrippedColumn(t, c)
    ensures r.Ok? ==>
      exists k :: 0 <= k < |candidates| && candidates[k] in t.columns && r.value == StrippedColumn(t, candidates[k])
        && (forall k' :: 0 <= k' < k ==> candidates[k'] !in t.columns)
  {
    var col := FirstPresent(candidates, t.columns);
    if col.None? then MissingColumn else Ok(StrippedColumn(t, col.value))
  }
}
