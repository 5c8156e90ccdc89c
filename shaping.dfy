/** Turning a provider download into long-form `(date, ticker, adj_close)`
    rows: `fetch_adj_close_long` in `src/fetch_partitioned.py` and
    `fetch_new_data` in `src/fetch_prices.py`, from the point where the
    download has been received. */
module Shaping {
  import opened Wrappers
  import opened Seqs
  import opened Rows

  /** The adjusted-close part of a download: nothing, one series (the
      columns are not a MultiIndex), or a table with one column per ticker.
      A missing price is `None`. */
  datatype Response =
    | Empty
    | Single(series: seq<(Date, Option<Price>)>)
    | Multi(dates: seq<Date>, tickers: seq<Ticker>, cells: seq<seq<Option<Price>>>)
  {
    /** A table has one cell per date and ticker. */
    predicate WellFormed()
    {
      Multi? ==> |cells| == |dates| && forall i :: 0 <= i < |cells| ==> |cells[i]| == |tickers|
    }
  }

  /** What the provider can return: tables are always rectangular. */
  type Download = r: Response | r.WellFormed() witness Empty

  /** A long-form row before `dropna`: the price may be missing. */
  datatype LongRow = LongRow(date: Date, ticker: Ticker, adjClose: Option<Price>)

  /** `reset_index` of a series plus a constant `ticker` column. */
  function SeriesLong(series: seq<(Date, Option<Price>)>, ticker: Ticker): (long: seq<LongRow>)
    ensures |long| == |series|
    ensures forall i :: 0 <= i < |series| ==> long[i] == LongRow(series[i].0, ticker, series[i].1)
  {
    seq(|series|, i requires 0 <= i < |series| => LongRow(series[i].0, ticker, series[i].1))
  }

  /** Column `j` of a table, as a series indexed by the table's dates. */
  function Column(dates: seq<Date>, tickers: seq<Ticker>, cells: seq<seq<Option<Price>>>, j: int): (col: seq<(Date, Option<Price>)>)
    requires Multi(dates, tickers, cells).WellFormed() && 0 <= j < |tickers|
    ensures |col| == |dates|
    ensures forall i :: 0 <= i < |dates| ==> col[i] == (dates[i], cells[i][j])
  {
    seq(|dates|, i requires 0 <= i < |dates| => (dates[i], cells[i][j]))
  }

  /** `melt(id_vars=["date"], var_name="ticker")` of the columns `j..` of a
      table: column by column, and within a column date by date. */
  function Melt(dates: seq<Date>, tickers: seq<Ticker>, cells: seq<seq<Option<Price>>>, j: nat): (long: seq<LongRow>)
    requires Multi(dates, tickers, cells).WellFormed() && j <= |tickers|
    ensures |long| == (|tickers| - j) * |dates|
    decreases |tickers| - j
  {
    if j == |tickers| then []
    else
      var rest := Melt(dates, tickers, cells, j + 1);
      assert (|tickers| - j) * |dates| == |dates| + (|tickers| - (j + 1)) * |dates|;
      SeriesLong(Column(dates, tickers, cells, j), tickers[j]) + rest
  }

  /** Melting emits one long row for each cell of the columns `j..`, and nothing else. */
  lemma {:induction false} MeltCells(dates: seq<Date>, tickers: seq<Ticker>, cells: seq<seq<Option<Price>>>, j: nat, x: LongRow)
    requires Multi(dates, tickers, cells).WellFormed() && j <= |tickers|
    ensures x in Melt(dates, tickers, cells, j) <==>
      exists i, k :: 0 <= i < |dates| && j <= k < |tickers| &&
        x == LongRow(dates[i], tickers[k], cells[i][k])
    decreases |tickers| - j
  {
    if j < |tickers| {
      MeltCells(dates, tickers, cells, j + 1, x);
      var col := SeriesLong(Column(dates, tickers, cells, j), tickers[j]);
      assert Melt(dates, tickers, cells, j) == col + Melt(dates, tickers, cells, j + 1);
      if x in col {
        var i :| 0 <= i < |col| && col[i] == x;
        assert x == LongRow(dates[i], tickers[j], cells[i][j]);
      }
      if exists i, k :: 0 <= i < |dates| && j <= k < |tickers| && x == LongRow(dates[i], tickers[k], cells[i][k]) {
        var i, k :| 0 <= i < |dates| && j <= k < |tickers| && x == LongRow(dates[i], tickers[k], cells[i][k]);
        if k == j {
          assert col[i] == x;
        }
      }
    }
  }

  /** `dropna(subset=["adj_close"])`: keeps the rows with a price, in order. */
  function DropNa(long: seq<LongRow>): (rows: seq<Row>)
    ensures |rows| <= |long|
    decreases |long|
  {
    if long == [] then []
    else
      var head := long[0];
      (if head.adjClose.Some? then [Row(head.date, head.ticker, head.adjClose.value)] else [])
      + DropNa(long[1..])
  }

  /** A row survives `dropna` exactly when its long row had that price. */
  lemma {:induction false} DropNaRows(long: seq<LongRow>, r: Row)
    ensures r in DropNa(long) <==> LongRow(r.date, r.ticker, Some(r.price)) in long
    decreases |long|
  {
    if long != [] {
      DropNaRows(long[1..], r);
      assert long == [long[0]] + long[1..];
    }
  }

  /** The body of `fetch_adj_close_long` after the download: an empty
      download gives no rows; a single series is tagged with the first
      requested ticker; a table is melted into one row per cell; rows without
      a price are dropped. */
  function FetchAdjCloseLong(tickers: seq<Ticker>, resp: Response): seq<Row>
    requires resp.WellFormed()
    requires resp.Single? ==> |tickers| > 0
  {
    match resp
    case Empty => []
    case Single(series) => DropNa(SeriesLong(series, tickers[0]))
    case Multi(dates, cols, cells) => DropNa(Melt(dates, cols, cells, 0))
  }

  // ---------------------------------------------------------------------------
  // Properties of the shaping
  // ---------------------------------------------------------------------------

  /** An empty download yields no rows. */
  lemma ShapeEmpty(tickers: seq<Ticker>)
    ensures FetchAdjCloseLong(tickers, Empty) == []
  {
  }

  /** A single series yields exactly its priced points, each tagged with the
      first requested ticker. */
  lemma ShapeSingle(tickers: seq<Ticker>, series: seq<(Date, Option<Price>)>, r: Row)
    requires |tickers| > 0
    ensures r in FetchAdjCloseLong(tickers, Single(series)) <==>
      r.ticker == tickers[0] && (r.date, Some(r.price)) in series
  {
    var long := SeriesLong(series, tickers[0]);
    DropNaRows(long, r);
    if (r.date, Some(r.price)) in series {
      var i :| 0 <= i < |series| && series[i] == (r.date, Some(r.price));
      assert long[i] == LongRow(r.date, tickers[0], Some(r.price));
    }
    if LongRow(r.date, r.ticker, Some(r.price)) in long {
      var i :| 0 <= i < |long| && long[i] == LongRow(r.date, r.ticker, Some(r.price));
      assert series[i] == (r.date, Some(r.price));
    }
  }

  /** A table yields exactly one row for each cell that holds a price. */
  lemma ShapeMulti(dates: seq<Date>, tickers: seq<Ticker>, cells: seq<seq<Option<Price>>>, r: Row)
    requires Multi(dates, tickers, cells).WellFormed()
    ensures r in FetchAdjCloseLong(tickers, Multi(dates, tickers, cells)) <==>
      exists i, k :: 0 <= i < |dates| && 0 <= k < |tickers| &&
        dates[i] == r.date && tickers[k] == r.ticker && cells[i][k] == Some(r.price)
  {
    var x := LongRow(r.date, r.ticker, Some(r.price));
    DropNaRows(Melt(dates, tickers, cells, 0), r);
    MeltCells(dates, tickers, cells, 0, x);
  }

  /** Before dropping missing prices, a table gives one long row per cell. */
  lemma MeltSize(dates: seq<Date>, tickers: seq<Ticker>, cells: seq<seq<Option<Price>>>)
    requires Multi(dates, tickers, cells).WellFormed()
    ensures |Melt(dates, tickers, cells, 0)| == |tickers| * |dates|
  {
  }

  /** A one-column table gives the same rows as the equivalent single series. */
  lemma OneColumnAsSeries(dates: seq<Date>, t: Ticker, cells: seq<seq<Option<Price>>>)
    requires Multi(dates, [t], cells).WellFormed()
    ensures FetchAdjCloseLong([t], Multi(dates, [t], cells))
         == FetchAdjCloseLong([t], Single(Column(dates, [t], cells, 0)))
  {
    var col := SeriesLong(Column(dates, [t], cells, 0), t);
    assert Melt(dates, [t], cells, 0) == col + Melt(dates, [t], cells, 1);
    assert Melt(dates, [t], cells, 1) == [];
    assert col + [] == col;
  }

  // ---------------------------------------------------------------------------
  // fetch_new_data (src/fetch_prices.py)
  // ---------------------------------------------------------------------------

  /** The ticker `fetch_new_data` writes on every row. */
  const IndexTicker: Ticker := "^GSPC"

  /** The `Adj Close` column of a download that asked for one ticker. */
  function AdjCloseColumn(resp: Response): seq<(Date, Option<Price>)>
    requires resp.WellFormed() && (resp.Multi? ==> |resp.tickers| == 1)
  {
    match resp
    case Empty => []
    case Single(series) => series
    case Multi(dates, cols, cells) => Column(dates, cols, cells, 0)
  }

  /** `fetch_new_data` after the download: empty in, empty out; otherwise the
      `Adj Close` column, each row tagged `^GSPC`, rows without a price dropped. */
  method FetchNewData(resp: Response) returns (rows: seq<Row>)
    requires resp.WellFormed() && (resp.Multi? ==> |resp.tickers| == 1)
    ensures resp.Empty? ==> rows == []
    ensures forall r :: r in rows <==> r.ticker == IndexTicker && (r.date, Some(r.price)) in AdjCloseColumn(resp)
  {
    if resp.Empty? {
      return [];
    }
    var adj := SeriesLong(AdjCloseColumn(resp), IndexTicker);
    rows := DropNa(adj);
    forall r ensures r in rows <==> r.ticker == IndexTicker && (r.date, Some(r.price)) in AdjCloseColumn(resp) {
      ShapeSingle([IndexTicker], AdjCloseColumn(resp), r);
    }
  }

  /** For a download of the index alone, `fetch_new_data` and
      `fetch_adj_close_long(["^GSPC"], ...)` give the same rows. */
  lemma NewDataMatchesLong(resp: Response)
    requires resp.WellFormed() && (resp.Multi? ==> resp.tickers == [IndexTicker])
    ensures resp.Empty? ==> FetchAdjCloseLong([IndexTicker], resp) == []
    ensures !resp.Empty? ==>
      FetchAdjCloseLong([IndexTicker], resp) == DropNa(SeriesLong(AdjCloseColumn(resp), IndexTicker))
  {
    if resp.Multi? {
      OneColumnAsSeries(resp.dates, IndexTicker, resp.cells);
    }
  }
}
