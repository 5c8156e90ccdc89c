/** The single-file archive of `src/fetch_prices.py`: `data/prices.csv`
    holding the S&P 500 index rows, extended by one download per run. */
module FlatStore {
  import opened Wrappers
  import opened Rows
  import opened Shaping
  import opened Resumption

  /** A download of the index alone: a table, if any, has one column. */
  type IndexDownload = r: Response | r.WellFormed() && (r.Multi? ==> |r.tickers| == 1) witness Empty

  /** The archive file, as the rows it holds. */
  class FlatArchive {
    var rows: seq<Row>

    constructor (initial: seq<Row>)
      ensures rows == initial
    {
      rows := initial;
    }

    /** `main`: resume from the day after the latest row, download, and when
        something came back, merge it over the archive (concatenate, keep the
        last row per `(date, ticker)`, sort); otherwise leave the archive as
        it was. */
    method Update(today: Date, provider: Date -> IndexDownload) returns (start: Date, newData: seq<Row>)
      modifies this
      ensures start == GetStartDate(old(rows), today)
      ensures forall r :: r in newData <==>
        r.ticker == IndexTicker && (r.date, Some(r.price)) in AdjCloseColumn(provider(start))
      ensures newData == [] ==> rows == old(rows)
      ensures newData != [] ==> rows == MergeRows(old(rows), newData)
    {
      start := GetStartDate(rows, today);
      newData := FetchNewData(provider(start));
      if newData == [] {
        return;
      }
      var combined := rows + newData;
      var deduped := KeepLast(combined);
      rows := SortRows(deduped);
    }
  }

  /** After an update with new rows the file is strictly ascending by
      `(date, ticker)`, each key holds the newest price, and no key is lost. */
  lemma UpdatedArchive(existing: seq<Row>, newData: seq<Row>)
    ensures StrictlySorted(MergeRows(existing, newData))
    ensures KeysOf(MergeRows(existing, newData)) == KeysOf(existing) + KeysOf(newData)
    ensures forall r :: (r in newData && r.Key() in KeyMap(newData) && KeyMap(newData)[r.Key()] == r.price) ==> r in MergeRows(existing, newData)
  {
    MergeCanonical(existing, newData);
    MergeKeys(existing, newData);
    var m := MergeRows(existing, newData);
    forall r | r in newData && r.Key() in KeyMap(newData) && KeyMap(newData)[r.Key()] == r.price
      ensures r in m
    {
      MergedRowAt(m, r);
    }
  }

  lemma RowBelowMax(s: seq<Row>, r: Row)
    requires r in s
    ensures r.date <= SeqMax(RowDates(s))
  {
    var j :| 0 <= j < |s| && s[j] == r;
    var ds := RowDates(s);
    assert ds[j] == r.date;
    assert ds[j] in ds;
  }

  lemma MaxIsARow(s: seq<Row>) returns (r: Row)
    requires s != []
    ensures r in s && r.date == SeqMax(RowDates(s))
  {
    var ds := RowDates(s);
    var i :| 0 <= i < |ds| && ds[i] == SeqMax(ds);
    r := s[i];
  }

  /** The latest date never moves back: a merged archive reaches at least the
      latest date it had, so the next run starts no earlier. */
  lemma LatestNeverDecreases(existing: seq<Row>, newData: seq<Row>, today: Date)
    requires existing != []
    ensures MergeRows(existing, newData) != []
    ensures SeqMax(RowDates(existing)) <= SeqMax(RowDates(MergeRows(existing, newData)))
    ensures GetStartDate(existing, today) <= GetStartDate(MergeRows(existing, newData), today)
  {
    var m := MergeRows(existing, newData);
    MergeKeys(existing, newData);
    var top := MaxIsARow(existing);
    assert top.Key() in KeysOf(existing);
    assert top.Key() in KeysOf(m);
    var y :| y in m && y.Key() == top.Key();
    RowBelowMax(m, y);
  }
}
