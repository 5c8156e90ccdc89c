/** One run of `src/fetch_partitioned.py`: reading the equity universe,
    fetching the index and the equities in batches, and merging both into
    the month archive; plus `load_equity_universe_1000`. */
module Ingestion {
  import opened Wrappers
  import opened Text
  import opened Seqs
  import opened Rows
  import opened Tables
  import opened Shaping
  import opened PartitionedStore
  import opened Resumption

  /** Largest universe read or built (`equity[:1000]`, `len(combined) >= 1000`). */
  const MaxUniverse: nat := 1000

  /** Tickers per download request. */
  const BatchSize: nat := 100

  /** `INDEX_TICKERS`. */
  const IndexTickers: seq<Ticker> := ["^GSPC"]

  /** The download of adjusted closes from a start date, for a list of tickers. */
  type Provider = (seq<Ticker>, Date) -> Download

  // ---------------------------------------------------------------------------
  // Reading config/equity_universe.txt
  // ---------------------------------------------------------------------------

  /** A stripped line is a ticker when it is not blank and not a `#` comment. */
  predicate KeepTicker(t: string)
  {
    |t| > 0 && !StartsWith(t, '#')
  }

  /** The tickers of a sequence of lines: each line stripped, blank and
      comment lines dropped, order kept. */
  function UniverseTickers(lines: seq<string>): (ts: seq<Ticker>)
    ensures |ts| <= |lines|
    decreases |lines|
  {
    if lines == [] then []
    else
      var init := lines[..|lines| - 1];
      var t := Strip(lines[|lines| - 1]);
      if KeepTicker(t) then UniverseTickers(init) + [t] else UniverseTickers(init)
  }

  lemma UniverseTickersSnoc(lines: seq<string>, l: string)
    ensures UniverseTickers(lines + [l])
         == if KeepTicker(Strip(l)) then UniverseTickers(lines) + [Strip(l)] else UniverseTickers(lines)
  {
    assert (lines + [l])[..|lines|] == lines;
  }

  /** Reading one more line of a prefix. */
  lemma UniverseTickersPrefix(lines: seq<string>, i: nat)
    requires i < |lines|
    ensures UniverseTickers(lines[..i + 1])
         == if KeepTicker(Strip(lines[i])) then UniverseTickers(lines[..i]) + [Strip(lines[i])]
            else UniverseTickers(lines[..i])
  {
    assert lines[..i + 1][..i] == lines[..i];
  }

  /** The tickers read are exactly the stripped lines that are neither blank
      nor comments; each is its own strip. */
  lemma {:induction false} UniverseTickersMembers(lines: seq<string>)
    ensures forall t :: t in UniverseTickers(lines) <==> KeepTicker(t) && exists l :: l in lines && Strip(l) == t
    decreases |lines|
  {
    if lines != [] {
      var init := lines[..|lines| - 1];
      var l := lines[|lines| - 1];
      assert lines == init + [l];
      UniverseTickersSnoc(init, l);
      UniverseTickersMembers(init);
    }
  }

  lemma TickerRead(lines: seq<string>, t: string)
    requires t in UniverseTickers(lines)
    ensures Strip(t) == t && KeepTicker(t)
  {
    UniverseTickersMembers(lines);
    UniverseTickersStripped(lines);
  }

  lemma UniverseTickersStripped(lines: seq<string>)
    ensures forall t :: t in UniverseTickers(lines) ==> Strip(t) == t
  {
    UniverseTickersMembers(lines);
    forall t | t in UniverseTickers(lines) ensures Strip(t) == t {
      var l :| l in lines && Strip(l) == t;
      StripIdempotent(l);
    }
  }

  /** At most 1000 tickers are kept, each a stripped line that is neither
      blank nor a comment. */
  lemma EquityShape(lines: seq<string>)
    ensures var equity := Take(UniverseTickers(lines), MaxUniverse);
      |equity| <= 1000 && forall t :: t in equity ==> Strip(t) == t && KeepTicker(t)
  {
    var all := UniverseTickers(lines);
    var equity := Take(all, MaxUniverse);
    assert |equity| <= 1000;
    forall t | t in equity ensures Strip(t) == t && KeepTicker(t) {
      TakeMember(all, MaxUniverse, t);
      TickerRead(lines, t);
    }
  }

  /** The universe-reading loop of `main`, then `equity[:1000]`. */
  method ReadEquityUniverse(text: string) returns (equity: seq<Ticker>)
    ensures equity == Take(UniverseTickers(SplitLines(text)), MaxUniverse)
    ensures |equity| <= 1000
    ensures forall t :: t in equity ==> Strip(t) == t && KeepTicker(t)
  {
    var lines := SplitLines(text);
    var all := [];
    var i := 0;
    while i < |lines|
      invariant 0 <= i <= |lines|
      invariant all == UniverseTickers(lines[..i])
    {
      UniverseTickersPrefix(lines, i);
      var t := Strip(lines[i]);
      if KeepTicker(t) {
        all := all + [t];
      }
      assert all == UniverseTickers(lines[..i + 1]);
      i := i + 1;
    }
    assert lines[..i] == lines;
    equity := Take(all, MaxUniverse);
    EquityShape(lines);
  }

  // ---------------------------------------------------------------------------
  // Batching and fetching
  // ---------------------------------------------------------------------------

  /** Consecutive slices of `k` elements, the last one possibly shorter. */
  function Chunks<T>(s: seq<T>, k: nat): (bs: seq<seq<T>>)
    requires k > 0
    ensures Flatten(bs) == s
    ensures forall i :: 0 <= i < |bs| ==> 0 < |bs[i]| <= k
    ensures forall i :: 0 <= i < |bs| - 1 ==> |bs[i]| == k
    decreases |s|
  {
    if s == [] then []
    else if |s| <= k then
      assert Flatten([s]) == s + Flatten([s][1..]);
      [s]
    else
      var rest := Chunks(s[k..], k);
      var bs := [s[..k]] + rest;
      assert bs[1..] == rest;
      assert s[..k] + s[k..] == s;
      bs
  }

  /** The download of one batch, shaped into long rows. */
  function FetchBatch(batch: seq<Ticker>, provider: Provider, start: Date): seq<Row>
    requires batch != []
  {
    FetchAdjCloseLong(batch, provider(batch, start))
  }

  /** One download per batch, shaped into long rows. */
  function FetchEach(batches: seq<seq<Ticker>>, provider: Provider, start: Date): (parts: seq<seq<Row>>)
    requires forall b :: b in batches ==> b != []
    ensures |parts| == |batches|
    ensures forall i :: 0 <= i < |batches| ==>
      (batches[i] in batches && parts[i] == FetchBatch(batches[i], provider, start))
  {
    seq(|batches|, i requires 0 <= i < |batches| && batches[i] in batches =>
      FetchBatch(batches[i], provider, start))
  }

  /** The chunks of `s` from position `i` on, or none once `i` is past the end. */
  function ChunksFrom<T>(s: seq<T>, i: nat, k: nat): seq<seq<T>>
    requires k > 0
  {
    if i < |s| then Chunks(s[i..], k) else []
  }

  /** Taking the slice at `i` moves the boundary of the remaining chunks by `k`. */
  lemma ChunksStep<T>(s: seq<T>, i: nat, k: nat)
    requires k > 0 && i < |s|
    ensures ChunksFrom(s, i, k) == [s[i..Min(i + k, |s|)]] + ChunksFrom(s, i + k, k)
    ensures s[i..Min(i + k, |s|)] != []
  {
    if i + k < |s| {
      assert s[i..][k..] == s[i + k..];
      assert s[i..][..k] == s[i..i + k];
    } else {
      assert s[i..Min(i + k, |s|)] == s[i..];
    }
  }

  lemma FetchEachSnoc(batches: seq<seq<Ticker>>, b: seq<Ticker>, provider: Provider, start: Date)
    requires forall x :: x in batches ==> x != []
    requires b != []
    ensures forall x :: x in batches + [b] ==> x != []
    ensures FetchEach(batches + [b], provider, start)
         == FetchEach(batches, provider, start) + [FetchBatch(b, provider, start)]
  {
  }

  /** One turn of the batch loop: the next slice joins the batches taken and
      its download joins the parts. */
  lemma BatchStep(equity: seq<Ticker>, i: nat, batches: seq<seq<Ticker>>, batch: seq<Ticker>,
                  provider: Provider, start: Date)
    requires i < |equity| && batch == equity[i..Min(i + BatchSize, |equity|)]
    requires batches + ChunksFrom(equity, i, BatchSize) == Chunks(equity, BatchSize)
    requires forall b :: b in batches ==> b != []
    ensures batch != []
    ensures (batches + [batch]) + ChunksFrom(equity, i + BatchSize, BatchSize) == Chunks(equity, BatchSize)
    ensures forall b :: b in batches + [batch] ==> b != []
    ensures FetchEach(batches + [batch], provider, start)
         == FetchEach(batches, provider, start) + [FetchBatch(batch, provider, start)]
  {
    ChunksStep(equity, i, BatchSize);
    ConcatAssoc(batches, [batch], ChunksFrom(equity, i + BatchSize, BatchSize));
    FetchEachSnoc(batches, batch, provider, start);
  }

  /** The batch loop of `main`: `equity[i:i + batch_size]` for `i` in
      `range(0, len(equity), batch_size)`, each fetched and shaped. */
  method FetchInBatches(equity: seq<Ticker>, provider: Provider, start: Date)
    returns (batches: seq<seq<Ticker>>, parts: seq<seq<Row>>)
    ensures batches == Chunks(equity, BatchSize)
    ensures parts == FetchEach(batches, provider, start)
  {
    batches := [];
    parts := [];
    var i := 0;
    assert equity[0..] == equity;
    while i < |equity|
      invariant batches + ChunksFrom(equity, i, BatchSize) == Chunks(equity, BatchSize)
      invariant forall b :: b in batches ==> b != []
      invariant parts == FetchEach(batches, provider, start)
      decreases |equity| - i
    {
      var batch := equity[i..Min(i + BatchSize, |equity|)];
      BatchStep(equity, i, batches, batch, provider, start);
      parts := parts + [FetchBatch(batch, provider, start)];
      batches := batches + [batch];
      i := i + BatchSize;
    }
  }

  /** The index rows of a run. */
  function IndexRows(provider: Provider, start: Date): seq<Row>
  {
    FetchAdjCloseLong(IndexTickers, provider(IndexTickers, start))
  }

  /** The universe read from the text of `config/equity_universe.txt`. */
  function Equity(universeText: string): seq<Ticker>
  {
    Take(UniverseTickers(SplitLines(universeText)), MaxUniverse)
  }

  /** The equity rows of a run: every batch fetched, concatenated in batch order. */
  function PriceRows(provider: Provider, start: Date, universeText: string): seq<Row>
  {
    Flatten(FetchEach(Chunks(Equity(universeText), BatchSize), provider, start))
  }

  /** `main` of `src/fetch_partitioned.py`. The archive folders as they were
      walked, the provider, `today` and the universe file's text are inputs. */
  method RunIngestion(archive: MonthArchive, provider: Provider,
                      pricesFolder: Option<seq<CsvFile>>, indicesFolder: Option<seq<CsvFile>>,
                      today: Date, universeText: string)
    returns (start: Date)
    modifies archive
    ensures start == FolderStart(pricesFolder, indicesFolder, today)
    ensures archive.files == Appended(Appended(old(archive.files), Indices, IndexRows(provider, start)),
                                      Prices, PriceRows(provider, start, universeText))
    ensures old(archive.Valid()) ==> archive.Valid()
    ensures old(Mirrors(pricesFolder, archive.files, Prices) && Mirrors(indicesFolder, archive.files, Indices)) ==>
      forall k, r :: k in old(archive.files) && r in old(archive.files)[k] ==> r.date < start
    ensures forall k :: k in old(archive.files) ==> k in archive.files && KeysOf(old(archive.files)[k]) <= KeysOf(archive.files[k])
  {
    ghost var valid0 := archive.Valid();
    ghost var files0 := archive.files;
    if Mirrors(pricesFolder, files0, Prices) && Mirrors(indicesFolder, files0, Indices) {
      MirroredStartAfterRows(pricesFolder, indicesFolder, files0, today);
    }
    start := StartDate(pricesFolder, indicesFolder, today);
    var equity := ReadEquityUniverse(universeText);
    var idxLong := FetchAdjCloseLong(IndexTickers, provider(IndexTickers, start));
    archive.AppendToMonthFiles(Indices, idxLong);
    ghost var valid1 := archive.Valid();
    assert valid0 ==> valid1;
    assert equity == Equity(universeText);
    var batches, parts := FetchInBatches(equity, provider, start);
    var pricesLong := Flatten(parts);
    assert pricesLong == PriceRows(provider, start, universeText);
    archive.AppendToMonthFiles(Prices, pricesLong);
    RunKeepsKeys(files0, idxLong, pricesLong);
  }

  // ---------------------------------------------------------------------------
  // The walked folders and the archive
  // ---------------------------------------------------------------------------

  /** The date columns of the files of a walked folder that count towards its mark. */
  ghost function ListedDates(folder: Option<seq<CsvFile>>): set<seq<Date>>
  {
    set f | folder.Some? && f in folder.value && Counts(f) :: f.dates.value
  }

  /** The date columns of the non-empty partitions of `kind`. */
  ghost function PartitionDates(files: map<PartitionKey, seq<Row>>, kind: Kind): set<seq<Date>>
  {
    set k | k in files && k.kind == kind && files[k] != [] :: RowDates(files[k])
  }

  /** The walked folder of `kind` shows the archive's partitions of that kind:
      the files that count read back as exactly the non-empty partitions. */
  ghost predicate Mirrors(folder: Option<seq<CsvFile>>, files: map<PartitionKey, seq<Row>>, kind: Kind)
  {
    ListedDates(folder) == PartitionDates(files, kind)
  }

  /** A row's date is among the dates its partition reads back as. */
  lemma RowDateListed(rows: seq<Row>, r: Row)
    requires r in rows
    ensures r.date in RowDates(rows)
  {
    var i :| 0 <= i < |rows| && rows[i] == r;
    assert RowDates(rows)[i] == r.date;
  }

  /** With both folders showing the archive, the run resumes after every
      archived row of every partition. */
  lemma MirroredStartAfterRows(pricesFolder: Option<seq<CsvFile>>, indicesFolder: Option<seq<CsvFile>>,
                               files: map<PartitionKey, seq<Row>>, today: Date)
    requires Mirrors(pricesFolder, files, Prices) && Mirrors(indicesFolder, files, Indices)
    ensures forall k, r :: k in files && r in files[k] ==> r.date < FolderStart(pricesFolder, indicesFolder, today)
  {
    forall k, r | k in files && r in files[k]
      ensures r.date < FolderStart(pricesFolder, indicesFolder, today)
    {
      ResumeAfterArchive(pricesFolder, indicesFolder, today);
      if k.kind == Prices {
        MirroredRow(pricesFolder, files, Prices, k, r);
      } else {
        MirroredRow(indicesFolder, files, Indices, k, r);
      }
    }
  }

  /** The rows of one run keep every partition and every stored key. */
  lemma RunKeepsKeys(files: map<PartitionKey, seq<Row>>, indexRows: seq<Row>, priceRows: seq<Row>)
    ensures forall k :: k in files ==>
      var after := Appended(Appended(files, Indices, indexRows), Prices, priceRows);
      k in after && KeysOf(files[k]) <= KeysOf(after[k])
  {
    forall k | k in files
      ensures var after := Appended(Appended(files, Indices, indexRows), Prices, priceRows);
        k in after && KeysOf(files[k]) <= KeysOf(after[k])
    {
      AppendedKeepsKeys(files, Indices, indexRows, k);
      AppendedKeepsKeys(Appended(files, Indices, indexRows), Prices, priceRows, k);
    }
  }

  /** A date of a file that counts is the date of a row of the archive. */
  lemma MirroredDate(folder: Option<seq<CsvFile>>, files: map<PartitionKey, seq<Row>>, kind: Kind, f: CsvFile, d: Date)
    requires Mirrors(folder, files, kind) && InFolder(folder, f) && d in f.dates.value
    ensures exists k, r :: k in files && r in files[k] && r.date == d
  {
    assert f.dates.value in ListedDates(folder);
    var k :| k in files && k.kind == kind && files[k] != [] && RowDates(files[k]) == f.dates.value;
    var i :| 0 <= i < |RowDates(files[k])| && RowDates(files[k])[i] == d;
    assert files[k][i] in files[k];
  }

  /** A row of the archive has its date in a file that counts. */
  lemma MirroredRow(folder: Option<seq<CsvFile>>, files: map<PartitionKey, seq<Row>>, kind: Kind, k: PartitionKey, r: Row)
    requires Mirrors(folder, files, kind) && k in files && k.kind == kind && r in files[k]
    ensures exists f :: InFolder(folder, f) && r.date in f.dates.value
  {
    assert RowDates(files[k]) in PartitionDates(files, kind);
    var f :| folder.Some? && f in folder.value && Counts(f) && f.dates.value == RowDates(files[k]);
    RowDateListed(files[k], r);
  }

  /** With a non-empty archive, the day before the start date is the date
      of some archived row: the start is exactly one day past the mark. */
  lemma MirroredMarkIsRow(pricesFolder: Option<seq<CsvFile>>, indicesFolder: Option<seq<CsvFile>>,
                          files: map<PartitionKey, seq<Row>>, today: Date)
    requires Mirrors(pricesFolder, files, Prices) && Mirrors(indicesFolder, files, Indices)
    requires exists k :: k in files && files[k] != []
    ensures exists k, r :: k in files && r in files[k] && r.date == FolderStart(pricesFolder, indicesFolder, today) - 1
  {
    var day := FolderStart(pricesFolder, indicesFolder, today) - 1;
    var k0 :| k0 in files && files[k0] != [];
    var r0 := files[k0][0];
    if k0.kind == Prices {
      MirroredRow(pricesFolder, files, Prices, k0, r0);
    } else {
      MirroredRow(indicesFolder, files, Indices, k0, r0);
    }
    var g :| (InFolder(pricesFolder, g) || InFolder(indicesFolder, g)) && r0.date in g.dates.value;
    ResumeNoGap(pricesFolder, indicesFolder, today, g);
    var f :| (InFolder(pricesFolder, f) || InFolder(indicesFolder, f)) && day in f.dates.value;
    if InFolder(pricesFolder, f) {
      MirroredDate(pricesFolder, files, Prices, f, day);
    } else {
      MirroredDate(indicesFolder, files, Indices, f, day);
    }
  }

  /** The mark never moves back: if the archive held a row and every stored
      key is still stored later, the next run starts no earlier than this one,
      whatever its `today`. */
  lemma NextStartNoEarlier(pricesFolder: Option<seq<CsvFile>>, indicesFolder: Option<seq<CsvFile>>,
                           files: map<PartitionKey, seq<Row>>, today: Date,
                           nextPrices: Option<seq<CsvFile>>, nextIndices: Option<seq<CsvFile>>,
                           next: map<PartitionKey, seq<Row>>, nextToday: Date)
    requires Mirrors(pricesFolder, files, Prices) && Mirrors(indicesFolder, files, Indices)
    requires Mirrors(nextPrices, next, Prices) && Mirrors(nextIndices, next, Indices)
    requires exists k :: k in files && files[k] != []
    requires forall k :: k in files ==> k in next && KeysOf(files[k]) <= KeysOf(next[k])
    ensures FolderStart(pricesFolder, indicesFolder, today) <= FolderStart(nextPrices, nextIndices, nextToday)
  {
    var start := FolderStart(pricesFolder, indicesFolder, today);
    MirroredMarkIsRow(pricesFolder, indicesFolder, files, today);
    var k, r :| k in files && r in files[k] && r.date == start - 1;
    assert r.Key() in KeysOf(next[k]);
    var y :| y in next[k] && y.Key() == r.Key();
    MirroredStartAfterRows(nextPrices, nextIndices, next, nextToday);
    assert y.date < FolderStart(nextPrices, nextIndices, nextToday);
  }

  /** When every column the provider returns is one of the requested
      tickers, every equity row belongs to a ticker of the universe. */
  lemma PriceRowsInUniverse(provider: Provider, start: Date, universeText: string, r: Row)
    requires forall b, t :: provider(b, start).Multi? && t in provider(b, start).tickers ==> t in b
    requires r in PriceRows(provider, start, universeText)
    ensures r.ticker in Equity(universeText)
  {
    var batches := Chunks(Equity(universeText), BatchSize);
    var parts := FetchEach(batches, provider, start);
    FlattenMember(parts, r);
    var i :| 0 <= i < |parts| && r in parts[i];
    var b := batches[i];
    var resp := provider(b, start);
    if resp.Single? {
      ShapeSingle(b, resp.series, r);
      assert r.ticker in b;
    } else if resp.Multi? {
      assert FetchAdjCloseLong(b, resp) == FetchAdjCloseLong(resp.tickers, resp);
      ShapeMulti(resp.dates, resp.tickers, resp.cells, r);
      var j, k :| 0 <= j < |resp.dates| && 0 <= k < |resp.tickers| && resp.tickers[k] == r.ticker
        && resp.dates[j] == r.date && resp.cells[j][k] == Some(r.price);
      assert r.ticker in resp.tickers;
    }
    FlattenMember(batches, r.ticker);
  }

  // ---------------------------------------------------------------------------
  // load_equity_universe_1000
  // ---------------------------------------------------------------------------

  /** Names tried after the preferred one. */
  const SymbolAlternatives: seq<string> := ["Ticker symbol", "Symbol", "Ticker"]

  /** `tickers_from`: the preferred column, else the first alternative present. */
  function TickersFrom(t: Frame, preferred: string): Outcome<seq<string>>
  {
    ProbeColumn(t, [preferred] + SymbolAlternatives)
  }

  /** `t.replace(".", "-")` on every ticker. */
  function Normalized(raw: seq<string>): (norm: seq<string>)
    ensures |norm| == |raw|
    ensures forall i :: 0 <= i < |raw| ==> norm[i] == ReplaceChar(raw[i], '.', '-')
    ensures forall i :: 0 <= i < |raw| ==>
      '.' !in norm[i] && |norm[i]| == |raw[i]| && ('.' !in raw[i] ==> norm[i] == raw[i])
  {
    seq(|raw|, i requires 0 <= i < |raw| => ReplaceChar(raw[i], '.', '-'))
  }

  lemma IndexOfPrefix(s: seq<string>, m: nat, x: string)
    requires m <= |s| && x in s[..m]
    ensures IndexOf(s, x) == IndexOf(s[..m], x)
  {
    var j := IndexOf(s[..m], x);
    var k := IndexOf(s, x);
    assert s[j] == x;
  }

  /** The non-empty elements of `s`, each kept at its first occurrence. */
  function Dedup(s: seq<string>): (d: seq<string>)
    ensures Distinct(d)
    ensures forall x :: x in d <==> x in s && x != ""
    decreases |s|
  {
    if s == [] then []
    else
      var init := s[..|s| - 1];
      var x := s[|s| - 1];
      assert forall y :: y in s <==> y in init || y == x;
      var d := Dedup(init);
      if x != "" && x !in d then d + [x] else d
  }

  /** Deduplication keeps first-occurrence order: of two kept tickers, the
      earlier one occurs earlier in the input. */
  lemma {:induction false} DedupOrder(s: seq<string>)
    ensures forall i, j :: 0 <= i < j < |Dedup(s)| ==> IndexOf(s, Dedup(s)[i]) < IndexOf(s, Dedup(s)[j])
    decreases |s|
  {
    if s != [] {
      var init := s[..|s| - 1];
      var x := s[|s| - 1];
      DedupOrder(init);
      var d := Dedup(init);
      forall y | y in d ensures IndexOf(s, y) == IndexOf(init, y) {
        IndexOfPrefix(s, |s| - 1, y);
      }
      if x != "" && x !in d {
        assert x !in init;
        assert IndexOf(s, x) == |s| - 1;
        assert Dedup(s) == d + [x];
      }
    }
  }

  /** Deduplicating a prefix gives a prefix of the deduplicated whole. */
  lemma {:induction false} DedupPrefix(s: seq<string>, k: nat)
    requires k <= |s|
    ensures |Dedup(s[..k])| <= |Dedup(s)|
    ensures Dedup(s)[..|Dedup(s[..k])|] == Dedup(s[..k])
    decreases |s| - k
  {
    if k < |s| {
      DedupPrefix(s, k + 1);
      var a := Dedup(s[..k]);
      var b := Dedup(s[..k + 1]);
      assert s[..k + 1][..k] == s[..k];
      assert b == a || b == a + [s[k]];
      assert b[..|a|] == a;
      assert Dedup(s)[..|a|] == Dedup(s)[..|b|][..|a|];
    } else {
      assert s[..k] == s;
    }
  }

  /** The de-duplicating loop of `load_equity_universe_1000`, stopping at 1000 tickers. */
  method DedupCapped(all: seq<string>) returns (combined: seq<Ticker>)
    ensures combined == Take(Dedup(Normalized(all)), MaxUniverse)
  {
    ghost var norm := Normalized(all);
    var seen: set<string> := {};
    combined := [];
    var i := 0;
    while i < |all|
      invariant 0 <= i <= |all|
      invariant combined == Dedup(norm[..i])
      invariant seen == set x | x in combined
      invariant |combined| < MaxUniverse
    {
      assert norm[..i + 1][..i] == norm[..i];
      var t := ReplaceChar(all[i], '.', '-');
      if t != "" && t !in seen {
        seen := seen + {t};
        combined := combined + [t];
      }
      i := i + 1;
      if |combined| >= MaxUniverse {
        DedupPrefix(norm, i);
        break;
      }
    }
    if i == |all| {
      assert norm[..i] == norm;
    }
  }

  lemma DedupCappedShape(all: seq<string>, combined: seq<Ticker>)
    requires combined == Take(Dedup(Normalized(all)), MaxUniverse)
    ensures |combined| <= 1000 && Distinct(combined)
    ensures forall t :: t in combined ==> t != "" && '.' !in t
  {
    var norm := Normalized(all);
    var d := Dedup(norm);
    assert combined == d[..|combined|];
    forall x | x in combined ensures x != "" && '.' !in x {
      assert x in d;
      var p :| 0 <= p < |norm| && norm[p] == x;
    }
  }

  /** `load_equity_universe_1000` on the first table of each of the three
      Wikipedia pages (S&P 500, 400, 600): fails when a table has none of the
      probed columns; otherwise the normalised tickers, without blanks and
      repeats, in first-occurrence order, at most 1000 of them. */
  method LoadEquityUniverse1000(sp500: Frame, sp400: Frame, sp600: Frame) returns (r: Outcome<seq<Ticker>>)
    ensures r.MissingColumn? <==>
      TickersFrom(sp500, "Symbol").MissingColumn? || TickersFrom(sp400, "Symbol").MissingColumn? ||
      TickersFrom(sp600, "Symbol").MissingColumn?
    ensures r.Ok? ==> r.value == Take(Dedup(Normalized(TickersFrom(sp500, "Symbol").value
      + TickersFrom(sp400, "Symbol").value + TickersFrom(sp600, "Symbol").value)), MaxUniverse)
    ensures r.Ok? ==> |r.value| <= 1000 && Distinct(r.value)
    ensures r.Ok? ==> forall t :: t in r.value ==> t != "" && '.' !in t
  {
    var t500 := TickersFrom(sp500, "Symbol");
    var t400 := TickersFrom(sp400, "Symbol");
    var t600 := TickersFrom(sp600, "Symbol");
    if t500.MissingColumn? || t400.MissingColumn? || t600.MissingColumn? {
      return MissingColumn;
    }
    var all := t500.value + t400.value + t600.value;
    var combined := DedupCapped(all);
    DedupCappedShape(all, combined);
    r := Ok(combined);
  }
}
