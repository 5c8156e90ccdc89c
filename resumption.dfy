/** Where a run resumes: the archive's high-water mark and the start date
    derived from it (`latest_date_in_folder` and the start-date part of
    `main` in `src/fetch_partitioned.py`, `get_start_date` in
    `src/fetch_prices.py`). */
module Resumption {
  import opened Wrappers
  import opened Rows

  /** Days requested when there is no archive yet (`timedelta(days=365 * 10)`). */
  const HistoryDays: int := 365 * 10

  /** Largest element of a non-empty sequence of dates. */
  function SeqMax(ds: seq<Date>): (m: Date)
    requires ds != []
    ensures m in ds
    ensures forall d :: d in ds ==> d <= m
    decreases |ds|
  {
    if |ds| == 1 then ds[0]
    else
      var rest := SeqMax(ds[1..]);
      assert forall d :: d in ds ==> d == ds[0] || d in ds[1..];
      if ds[0] < rest then rest else ds[0]
  }

  /** The `date` column of a frame. */
  function RowDates(rows: seq<Row>): (ds: seq<Date>)
    ensures |ds| == |rows|
    ensures forall i :: 0 <= i < |rows| ==> ds[i] == rows[i].date
  {
    seq(|rows|, i requires 0 <= i < |rows| => rows[i].date)
  }

  /** The running maximum used for both marks:
      `latest = m if latest is None else max(latest, m)`, skipping a missing `m`. */
  function MaxOpt(a: Option<Date>, b: Option<Date>): (r: Option<Date>)
    ensures r.None? <==> a.None? && b.None?
    ensures r.Some? ==> r == a || r == b
    ensures a.Some? ==> r.Some? && a.value <= r.value
    ensures b.Some? ==> r.Some? && b.value <= r.value
  {
    match (a, b)
    case (None, _) => b
    case (_, None) => a
    case (Some(x), Some(y)) => if x < y then b else a
  }

  // ---------------------------------------------------------------------------
  // latest_date_in_folder
  // ---------------------------------------------------------------------------

  /** A file found while walking a folder: its name and, when it parses with
      a `date` column, that column (`None` when `read_csv` raises). */
  datatype CsvFile = CsvFile(name: string, dates: Option<seq<Date>>)

  predicate IsCsvName(name: string)
  {
    |name| >= 4 && name[|name| - 4..] == ".csv"
  }

  /** A file that contributes to the mark: a `.csv` that parses and is not empty. */
  predicate Counts(f: CsvFile)
  {
    IsCsvName(f.name) && f.dates.Some? && f.dates.value != []
  }

  /** The latest date of one file, if it counts. */
  function FileMax(f: CsvFile): (r: Option<Date>)
    ensures r.Some? <==> Counts(f)
  {
    if Counts(f) then Some(SeqMax(f.dates.value)) else None
  }

  /** The high-water mark of a walked folder: the largest date of any file
      that counts, or `None` when no file counts. */
  function Latest(files: seq<CsvFile>): (r: Option<Date>)
    ensures r.None? <==> forall f :: f in files ==> !Counts(f)
    ensures r.Some? ==> exists f :: f in files && Counts(f) && r.value in f.dates.value
    ensures forall f, d :: f in files && Counts(f) && d in f.dates.value ==> r.Some? && d <= r.value
    decreases |files|
  {
    if files == [] then None
    else
      var init := files[..|files| - 1];
      var last := files[|files| - 1];
      assert forall f :: f in files ==> f in init || f == last;
      MaxOpt(Latest(init), FileMax(last))
  }

  /** `latest_date_in_folder`: `None` for a missing folder, otherwise the
      running maximum over the walked files, skipping those that fail to
      parse, are empty or are not `.csv`. */
  method LatestDateInFolder(folder: Option<seq<CsvFile>>) returns (latest: Option<Date>)
    ensures latest == if folder.None? then None else Latest(folder.value)
  {
    if folder.None? {
      return None;
    }
    var files := folder.value;
    latest := None;
    var i := 0;
    while i < |files|
      invariant 0 <= i <= |files|
      invariant latest == Latest(files[..i])
    {
      var f := files[i];
      assert files[..i + 1][..i] == files[..i];
      if IsCsvName(f.name) {
        if f.dates.Some? {
          if f.dates.value != [] {
            var m := SeqMax(f.dates.value);
            latest := if latest.None? then Some(m) else MaxOpt(latest, Some(m));
          }
        }
      }
      i := i + 1;
    }
    assert files[..i] == files;
  }

  // ---------------------------------------------------------------------------
  // Start date
  // ---------------------------------------------------------------------------

  /** `main`'s loop over `[last_prices, last_indices]`. */
  method CombineMarks(lastPrices: Option<Date>, lastIndices: Option<Date>) returns (last: Option<Date>)
    ensures last == MaxOpt(lastPrices, lastIndices)
  {
    var marks := [lastPrices, lastIndices];
    last := None;
    var i := 0;
    while i < |marks|
      invariant 0 <= i <= |marks|
      invariant last == (if i == 0 then None else if i == 1 then lastPrices else MaxOpt(lastPrices, lastIndices))
    {
      var x := marks[i];
      if x.Some? {
        last := if last.None? then x else MaxOpt(last, x);
      }
      i := i + 1;
    }
  }

  /** The day after the mark, or ten years of 365 days before `today`. */
  function ResumeDate(last: Option<Date>, today: Date): Date
  {
    if last.None? then today - HistoryDays else last.value + 1
  }

  /** The start date of `src/fetch_partitioned.py`'s `main`. */
  method StartDate(pricesFolder: Option<seq<CsvFile>>, indicesFolder: Option<seq<CsvFile>>, today: Date)
    returns (start: Date)
    ensures start == FolderStart(pricesFolder, indicesFolder, today)
  {
    var lastPrices := LatestDateInFolder(pricesFolder);
    var lastIndices := LatestDateInFolder(indicesFolder);
    var last := CombineMarks(lastPrices, lastIndices);
    start := ResumeDate(last, today);
  }

  function FolderMark(folder: Option<seq<CsvFile>>): Option<Date>
  {
    if folder.None? then None else Latest(folder.value)
  }

  /** The files of a folder that count towards its mark. */
  ghost predicate InFolder(folder: Option<seq<CsvFile>>, f: CsvFile)
  {
    folder.Some? && f in folder.value && Counts(f)
  }

  /** The start date `main` computes from the two walked folders. */
  function FolderStart(pricesFolder: Option<seq<CsvFile>>, indicesFolder: Option<seq<CsvFile>>, today: Date): Date
  {
    ResumeDate(MaxOpt(FolderMark(pricesFolder), FolderMark(indicesFolder)), today)
  }

  /** The resumed download starts after every archived date of either folder. */
  lemma ResumeAfterArchive(pricesFolder: Option<seq<CsvFile>>, indicesFolder: Option<seq<CsvFile>>, today: Date)
    ensures forall f, d ::
      ((InFolder(pricesFolder, f) || InFolder(indicesFolder, f)) && d in f.dates.value
       ==> d < FolderStart(pricesFolder, indicesFolder, today))
  {
  }

  /** It starts on the day right after the latest archived date, so no day is skipped. */
  lemma ResumeNoGap(pricesFolder: Option<seq<CsvFile>>, indicesFolder: Option<seq<CsvFile>>, today: Date, g: CsvFile)
    requires InFolder(pricesFolder, g) || InFolder(indicesFolder, g)
    ensures exists f ::
      ((InFolder(pricesFolder, f) || InFolder(indicesFolder, f))
       && FolderStart(pricesFolder, indicesFolder, today) - 1 in f.dates.value)
  {
    var a := FolderMark(pricesFolder);
    var b := FolderMark(indicesFolder);
    var last := MaxOpt(a, b);
    assert last.Some?;
    if last == a {
      var f :| f in pricesFolder.value && Counts(f) && a.value in f.dates.value;
      assert InFolder(pricesFolder, f);
    } else {
      var f :| f in indicesFolder.value && Counts(f) && b.value in f.dates.value;
      assert InFolder(indicesFolder, f);
    }
  }

  /** With nothing archived the download covers the 3650 days before `today`. */
  lemma ResumeFresh(pricesFolder: Option<seq<CsvFile>>, indicesFolder: Option<seq<CsvFile>>, today: Date)
    requires forall f :: !InFolder(pricesFolder, f) && !InFolder(indicesFolder, f)
    ensures FolderStart(pricesFolder, indicesFolder, today) == today - 3650
  {
    if pricesFolder.Some? {
      forall f | f in pricesFolder.value ensures !Counts(f) {
        assert !InFolder(pricesFolder, f);
      }
    }
    if indicesFolder.Some? {
      forall f | f in indicesFolder.value ensures !Counts(f) {
        assert !InFolder(indicesFolder, f);
      }
    }
  }

  // ---------------------------------------------------------------------------
  // get_start_date (src/fetch_prices.py)
  // ---------------------------------------------------------------------------

  /** `get_start_date` on the rows of the flat archive. */
  function GetStartDate(existing: seq<Row>, today: Date): Date
  {
    if existing == [] then today - HistoryDays else SeqMax(RowDates(existing)) + 1
  }

  /** The flat archive resumes the day after its latest row, so every
      existing row is earlier and no day is skipped; an empty archive starts
      3650 days before `today`. */
  lemma GetStartDateAfterArchive(existing: seq<Row>, today: Date)
    ensures existing == [] ==> GetStartDate(existing, today) == today - 3650
    ensures forall r :: r in existing ==> r.date < GetStartDate(existing, today)
    ensures existing != [] ==> exists r :: r in existing && r.date == GetStartDate(existing, today) - 1
  {
    if existing != [] {
      var ds := RowDates(existing);
      forall r | r in existing ensures r.date < GetStartDate(existing, today) {
        var i :| 0 <= i < |existing| && existing[i] == r;
        assert ds[i] in ds;
      }
      var i :| 0 <= i < |ds| && ds[i] == SeqMax(ds);
      assert existing[i] in existing;
    }
  }

  /** The flat file resumes exactly as a one-file folder holding it would. */
  lemma FlatMatchesFolder(existing: seq<Row>, today: Date)
    ensures GetStartDate(existing, today)
         == ResumeDate(Latest([CsvFile("prices.csv", Some(RowDates(existing)))]), today)
  {
    var f := CsvFile("prices.csv", Some(RowDates(existing)));
    assert IsCsvName(f.name);
    assert [f][..0] == [];
  }
}
