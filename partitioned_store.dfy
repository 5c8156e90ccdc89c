/** The month-partitioned archive of `src/fetch_partitioned.py`: one
    partition per `(kind, year, month)`, named `data/{kind}/{YYYY}/{MM}.csv`,
    and `append_to_month_files`, which routes incoming rows to the partition
    of their month and merges them in (see module Rows for the merge). */
module PartitionedStore {
  import opened Text
  import opened Seqs
  import opened Rows

  /** The two archives: equities under `data/prices`, indices under `data/indices`. */
  datatype Kind = Prices | Indices

  function KindDir(kind: Kind): string
  {
    match kind
    case Prices => "prices"
    case Indices => "indices"
  }

  datatype PartitionKey = PartitionKey(kind: Kind, year: int, month: int)

  // ---------------------------------------------------------------------------
  // Calendar: the (year, month) of a day ordinal
  // ---------------------------------------------------------------------------

  /** Days in the months before month `m` of a common year (1 <= m <= 12). */
  function DaysBeforeMonth(m: int): int
    requires 1 <= m <= 12
  {
    [0, 31, 59, 90, 120, 151, 181, 212, 243, 273, 304, 334][m - 1]
  }

  /** The proleptic-Gregorian year and month of a day ordinal, computed as
      CPython does (`_ord2ymd`): split into 400-, 100-, 4- and 1-year cycles,
      then guess the month from the day of the year and correct by one. */
  function YearMonth(d: Date): (ym: (int, int))
    ensures 1 <= ym.1 <= 12
  {
    var n := d - 1;
    var n400, r400 := n / 146097, n % 146097;
    var n100, r100 := r400 / 36524, r400 % 36524;
    var n4, r4 := r100 / 1461, r100 % 1461;
    var n1, dayOfYear := r4 / 365, r4 % 365;
    var year := n400 * 400 + 1 + n100 * 100 + n4 * 4 + n1;
    if n1 == 4 || n100 == 4 then
      (year - 1, 12)
    else
      var leap := n1 == 3 && (n4 != 24 || n100 == 3);
      var month := (dayOfYear + 50) / 32;
      var preceding := DaysBeforeMonth(month) + (if month > 2 && leap then 1 else 0);
      if preceding > dayOfYear then (year, month - 1) else (year, month)
  }

  /** The partition a row of the given kind belongs to. */
  function PartitionOf(kind: Kind, r: Row): PartitionKey
  {
    var ym := YearMonth(r.date);
    PartitionKey(kind, ym.0, ym.1)
  }

  /** Rows with the same key fall into the same partition. */
  lemma SameKeySamePartition(kind: Kind, a: Row, b: Row)
    requires a.Key() == b.Key()
    ensures PartitionOf(kind, a) == PartitionOf(kind, b)
  {
  }

  // ---------------------------------------------------------------------------
  // month_path
  // ---------------------------------------------------------------------------

  /** `data/{kind}/{year:04d}/{month:02d}.csv`. */
  function MonthPath(kind: Kind, year: int, month: int): string
  {
    "data/" + KindDir(kind) + "/" + FormatInt(year, 4) + "/" + FormatInt(month, 2) + ".csv"
  }

  predicate NoSlash(s: string)
  {
    forall i :: 0 <= i < |s| ==> s[i] != '/'
  }

  lemma FormatIntNoSlash(n: int, width: nat)
    ensures NoSlash(FormatInt(n, width))
  {
    var s := FormatInt(n, width);
    if n < 0 {
      assert forall i :: 1 <= i < |s| ==> s[i] == s[1..][i - 1];
    }
  }

  /** A component without a slash is recovered from `component + "/" + rest`. */
  lemma SplitAtSlash(a: string, b: string, a2: string, b2: string)
    requires NoSlash(a) && NoSlash(a2)
    requires a + "/" + b == a2 + "/" + b2
    ensures a == a2 && b == b2
  {
    var s := a + "/" + b;
    assert s[|a|] == '/' && (a2 + "/" + b2)[|a2|] == '/';
    assert |a| == |a2|;
    assert a == s[..|a|];
    assert a2 == (a2 + "/" + b2)[..|a2|];
    assert b == s[|a| + 1..];
    assert b2 == (a2 + "/" + b2)[|a2| + 1..];
  }

  /** The path after `data/`. */
  function PathTail(kind: Kind, year: int, month: int): string
  {
    KindDir(kind) + "/" + (FormatInt(year, 4) + "/" + (FormatInt(month, 2) + ".csv"))
  }

  lemma MonthPathTail(kind: Kind, year: int, month: int)
    ensures MonthPath(kind, year, month) == "data/" + PathTail(kind, year, month)
  {
    Regroup("data/", KindDir(kind), FormatInt(year, 4), FormatInt(month, 2), ".csv");
  }

  lemma Regroup(p: string, k: string, y: string, m: string, sfx: string)
    ensures p + k + "/" + y + "/" + m + sfx == p + (k + "/" + (y + "/" + (m + sfx)))
  {
  }

  lemma DropPrefix(p: string, a: string, b: string)
    requires p + a == p + b
    ensures a == b
  {
    assert a == (p + a)[|p|..];
    assert b == (p + b)[|p|..];
  }

  lemma DropSuffix(a: string, b: string, q: string)
    requires a + q == b + q
    ensures a == b
  {
    assert a == (a + q)[..|a + q| - |q|];
    assert b == (b + q)[..|b + q| - |q|];
  }

  lemma KindDirNoSlash(kind: Kind)
    ensures NoSlash(KindDir(kind))
  {
  }

  lemma KindDirInjective(k1: Kind, k2: Kind)
    ensures KindDir(k1) == KindDir(k2) ==> k1 == k2
  {
    assert |KindDir(Prices)| != |KindDir(Indices)|;
  }

  /** The three components of a path tail are recovered from it. */
  lemma TailInjective(k1: string, y1: string, m1: string, k2: string, y2: string, m2: string)
    requires NoSlash(k1) && NoSlash(k2) && NoSlash(y1) && NoSlash(y2)
    requires k1 + "/" + (y1 + "/" + (m1 + ".csv")) == k2 + "/" + (y2 + "/" + (m2 + ".csv"))
    ensures k1 == k2 && y1 == y2 && m1 == m2
  {
    SplitAtSlash(k1, y1 + "/" + (m1 + ".csv"), k2, y2 + "/" + (m2 + ".csv"));
    SplitAtSlash(y1, m1 + ".csv", y2, m2 + ".csv");
    DropSuffix(m1, m2, ".csv");
  }

  /** Different partitions are stored under different paths. */
  lemma MonthPathInjective(k1: Kind, y1: int, m1: int, k2: Kind, y2: int, m2: int)
    requires MonthPath(k1, y1, m1) == MonthPath(k2, y2, m2)
    ensures k1 == k2 && y1 == y2 && m1 == m2
  {
    MonthPathTail(k1, y1, m1);
    MonthPathTail(k2, y2, m2);
    DropPrefix("data/", PathTail(k1, y1, m1), PathTail(k2, y2, m2));
    FormatIntNoSlash(y1, 4);
    FormatIntNoSlash(y2, 4);
    KindDirNoSlash(k1);
    KindDirNoSlash(k2);
    TailInjective(KindDir(k1), FormatInt(y1, 4), FormatInt(m1, 2), KindDir(k2), FormatInt(y2, 4), FormatInt(m2, 2));
    KindDirInjective(k1, k2);
    FormatIntInjective(y1, y2, 4);
    FormatIntInjective(m1, m2, 2);
  }

  /** For years 0..9999 the year component has four digits and the month two. */
  lemma MonthPathPadded(kind: Kind, year: int, month: int)
    requires 0 <= year < 10000 && 1 <= month <= 12
    ensures MonthPath(kind, year, month)
         == "data/" + KindDir(kind) + "/" + FormatInt(year, 4) + "/" + FormatInt(month, 2) + ".csv"
    ensures |FormatInt(year, 4)| == 4 && AllDigits(FormatInt(year, 4))
    ensures |FormatInt(month, 2)| == 2 && AllDigits(FormatInt(month, 2))
  {
    assert Pow10(4) == 10000 && Pow10(2) == 100;
    ZeroPadExactWidth(year, 4);
    ZeroPadExactWidth(month, 2);
  }

  // ---------------------------------------------------------------------------
  // Grouping incoming rows by month
  // ---------------------------------------------------------------------------

  /** The rows of one `groupby` group, in their original order. */
  function ChunkOf(rows: seq<Row>, key: PartitionKey): (chunk: seq<Row>)
    ensures forall r :: r in chunk <==> r in rows && PartitionOf(key.kind, r) == key
    ensures Subsequence(chunk, rows)
    decreases |rows|
  {
    if rows == [] then []
    else
      assert rows == [rows[0]] + rows[1..];
      if PartitionOf(key.kind, rows[0]) == key then [rows[0]] + ChunkOf(rows[1..], key)
      else ChunkOf(rows[1..], key)
  }

  /** The group's key map is the whole input's key map restricted to the group's keys. */
  lemma {:induction false} ChunkKeyMap(rows: seq<Row>, key: PartitionKey, r: Row)
    requires r in rows && PartitionOf(key.kind, r) == key
    ensures r.Key() in KeyMap(ChunkOf(rows, key))
    ensures KeyMap(ChunkOf(rows, key))[r.Key()] == KeyMap(rows)[r.Key()]
    decreases |rows|
  {
    var x, t := rows[0], rows[1..];
    var rk := r.Key();
    assert rows == [x] + t;
    var ct := ChunkOf(t, key);
    if PartitionOf(key.kind, x) == key {
      assert ChunkOf(rows, key) == [x] + ct;
      if rk in KeysOf(t) {
        var y :| y in t && y.Key() == rk;
        ChunkKeyMap(t, key, y);
      } else {
        assert r == x;
        assert rk !in KeysOf(ct);
      }
      KeyMapConsAt(x, ct, rk);
      KeyMapConsAt(x, t, rk);
    } else {
      assert ChunkOf(rows, key) == ct;
      assert r in t;
      ChunkKeyMap(t, key, r);
      KeyMapConsAt(x, t, rk);
    }
  }

  /** The partitions that incoming rows of one kind touch. */
  function Touched(kind: Kind, rows: seq<Row>): set<PartitionKey>
  {
    set r | r in rows :: PartitionOf(kind, r)
  }

  /** `load_month_file`: the partition's rows, or none for a partition not yet created. */
  function Existing(files: map<PartitionKey, seq<Row>>, key: PartitionKey): seq<Row>
  {
    if key in files then files[key] else []
  }

  /** The archive after `append_to_month_files(kind, rows)`: every touched
      partition is replaced by its merge with its group; the others stay. */
  function Appended(files: map<PartitionKey, seq<Row>>, kind: Kind, rows: seq<Row>): map<PartitionKey, seq<Row>>
  {
    map k | k in files.Keys + Touched(kind, rows) ::
      if k in Touched(kind, rows) then MergeRows(Existing(files, k), ChunkOf(rows, k)) else files[k]
  }

  /** The archive once the groups in `done` have been written. */
  ghost function AppendedUpTo(files: map<PartitionKey, seq<Row>>, kind: Kind, rows: seq<Row>, done: set<PartitionKey>)
    : map<PartitionKey, seq<Row>>
  {
    map k | k in files.Keys + done ::
      if k in done then MergeRows(Existing(files, k), ChunkOf(rows, k)) else files[k]
  }

  /** A partition not yet written still holds what it held before. */
  lemma AppendedPending(files: map<PartitionKey, seq<Row>>, kind: Kind, rows: seq<Row>, done: set<PartitionKey>, key: PartitionKey)
    requires key !in done
    ensures key in AppendedUpTo(files, kind, rows, done) <==> key in files
    ensures Existing(AppendedUpTo(files, kind, rows, done), key) == Existing(files, key)
  {
  }

  lemma AppendedStep(files: map<PartitionKey, seq<Row>>, kind: Kind, rows: seq<Row>, done: set<PartitionKey>, key: PartitionKey)
    requires key !in done
    ensures AppendedUpTo(files, kind, rows, done)[key := MergeRows(Existing(files, key), ChunkOf(rows, key))]
         == AppendedUpTo(files, kind, rows, done + {key})
  {
    var v := MergeRows(Existing(files, key), ChunkOf(rows, key));
    var m := AppendedUpTo(files, kind, rows, done);
    var a := m[key := v];
    var b := AppendedUpTo(files, kind, rows, done + {key});
    assert a.Keys == b.Keys;
    forall k | k in a ensures a[k] == b[k] {
      if k == key {
        assert a[k] == v;
      } else {
        assert a[k] == m[k];
      }
    }
  }

  lemma AppendedUpToNone(files: map<PartitionKey, seq<Row>>, kind: Kind, rows: seq<Row>)
    ensures AppendedUpTo(files, kind, rows, {}) == files
  {
  }

  lemma AppendedUpToAll(files: map<PartitionKey, seq<Row>>, kind: Kind, rows: seq<Row>)
    ensures AppendedUpTo(files, kind, rows, Touched(kind, rows)) == Appended(files, kind, rows)
  {
  }

  /** Every partition is strictly ascending by `(date, ticker)` and holds only
      rows of its own kind's month. */
  ghost predicate Consistent(files: map<PartitionKey, seq<Row>>)
  {
    forall k | k in files ::
      && StrictlySorted(files[k])
      && forall r | r in files[k] :: PartitionOf(k.kind, r) == k
  }

  // ---------------------------------------------------------------------------
  // Properties of append_to_month_files
  // ---------------------------------------------------------------------------

  /** An empty input leaves the whole archive unchanged. */
  lemma AppendedEmpty(files: map<PartitionKey, seq<Row>>, kind: Kind)
    ensures Appended(files, kind, []) == files
  {
    assert Touched(kind, []) == {};
  }

  /** Partitions no incoming row belongs to are unchanged, and no partition disappears. */
  lemma AppendedUntouched(files: map<PartitionKey, seq<Row>>, kind: Kind, rows: seq<Row>, k: PartitionKey)
    requires forall r | r in rows :: PartitionOf(kind, r) != k
    ensures k in Appended(files, kind, rows) <==> k in files
    ensures k in files ==> Appended(files, kind, rows)[k] == files[k]
    ensures files.Keys <= Appended(files, kind, rows).Keys
  {
  }

  /** Every rewritten partition is strictly ascending, holds exactly the keys it
      held before plus the keys of its group, and holds only rows that were
      there before or that belong to its month. */
  lemma AppendedPartition(files: map<PartitionKey, seq<Row>>, kind: Kind, rows: seq<Row>, k: PartitionKey)
    requires k in Touched(kind, rows)
    ensures k in Appended(files, kind, rows)
    ensures StrictlySorted(Appended(files, kind, rows)[k])
    ensures KeysOf(Appended(files, kind, rows)[k]) == KeysOf(Existing(files, k)) + KeysOf(ChunkOf(rows, k))
    ensures forall x | x in Appended(files, kind, rows)[k] ::
      x in Existing(files, k) || (x in rows && PartitionOf(kind, x) == k)
  {
    var e, c := Existing(files, k), ChunkOf(rows, k);
    MergeCanonical(e, c);
    MergeKeys(e, c);
    forall x | x in MergeRows(e, c) ensures x in e || (x in rows && PartitionOf(kind, x) == k) {
      MergeRowsFrom(e, c, x);
    }
  }

  /** No partition disappears and no stored `(date, ticker)` key is lost:
      a merge only adds keys or replaces the row of a key. */
  lemma AppendedKeepsKeys(files: map<PartitionKey, seq<Row>>, kind: Kind, rows: seq<Row>, k: PartitionKey)
    requires k in files
    ensures k in Appended(files, kind, rows)
    ensures KeysOf(files[k]) <= KeysOf(Appended(files, kind, rows)[k])
  {
    if k in Touched(kind, rows) {
      AppendedPartition(files, kind, rows, k);
    } else {
      AppendedUntouched(files, kind, rows, k);
    }
  }

  /** Last write wins: the last incoming row for a key is in its month's
      partition afterwards, whatever was stored for that key before. */
  lemma AppendedLastWins(files: map<PartitionKey, seq<Row>>, kind: Kind, rows: seq<Row>, i: int)
    requires LastOfKey(rows, i)
    ensures PartitionOf(kind, rows[i]) in Appended(files, kind, rows)
    ensures rows[i] in Appended(files, kind, rows)[PartitionOf(kind, rows[i])]
  {
    var k := PartitionOf(kind, rows[i]);
    var e, c := Existing(files, k), ChunkOf(rows, k);
    var x := rows[i];
    assert k in Touched(kind, rows);
    KeyMapAtLast(rows, i);
    ChunkKeyMap(rows, k, x);
    MergeCanonical(e, c);
    MergedRowAt(MergeRows(e, c), x);
  }

  /** Appending the same rows a second time changes nothing. */
  lemma AppendedIdempotent(files: map<PartitionKey, seq<Row>>, kind: Kind, rows: seq<Row>)
    ensures Appended(Appended(files, kind, rows), kind, rows) == Appended(files, kind, rows)
  {
    var once := Appended(files, kind, rows);
    var twice := Appended(once, kind, rows);
    forall k | k in twice ensures k in once && twice[k] == once[k] {
      if k in Touched(kind, rows) {
        assert Existing(once, k) == MergeRows(Existing(files, k), ChunkOf(rows, k));
        MergeIdempotent(Existing(files, k), ChunkOf(rows, k));
      }
    }
  }

  /** Appending keeps every partition strictly sorted and in its own month. */
  lemma AppendedConsistent(files: map<PartitionKey, seq<Row>>, kind: Kind, rows: seq<Row>)
    requires Consistent(files)
    ensures Consistent(Appended(files, kind, rows))
  {
    var after := Appended(files, kind, rows);
    forall k | k in after
      ensures StrictlySorted(after[k]) && forall r | r in after[k] :: PartitionOf(k.kind, r) == k
    {
      if k in Touched(kind, rows) {
        AppendedPartition(files, kind, rows, k);
        var r0 :| r0 in rows && PartitionOf(kind, r0) == k;
      }
    }
  }

  // ---------------------------------------------------------------------------
  // The archive as a mutable object
  // ---------------------------------------------------------------------------

  /** Taking one more element out of the pending set adds it to the done set. */
  lemma DoneStep<T>(all: set<T>, todo: set<T>, x: T)
    requires x in todo && todo <= all
    ensures all - (todo - {x}) == (all - todo) + {x}
  {
  }

  /** The partition files on disk, as a map from partition to its rows. */
  class MonthArchive {
    var files: map<PartitionKey, seq<Row>>

    ghost predicate Valid()
      reads this
    {
      Consistent(files)
    }

    constructor (initial: map<PartitionKey, seq<Row>>)
      ensures files == initial
    {
      files := initial;
    }

    /** One iteration of `append_to_month_files`: load the partition (empty
        if it does not exist yet), concatenate the group, drop duplicate keys
        keeping the last row, sort, and write the partition back. */
    method MergeGroup(key: PartitionKey, chunk: seq<Row>)
      modifies this
      ensures files == old(files)[key := MergeRows(Existing(old(files), key), chunk)]
    {
      var existing := if key in files then files[key] else [];
      var combined := existing + chunk;
      combined := KeepLast(combined);
      combined := SortRows(combined);
      files := files[key := combined];
    }

    /** `append_to_month_files`: nothing to do for an empty input; otherwise
        each month group of `rows` is merged into its partition. */
    method AppendToMonthFiles(kind: Kind, rows: seq<Row>)
      modifies this
      ensures files == Appended(old(files), kind, rows)
      ensures old(Valid()) ==> Valid()
    {
      if rows == [] {
        AppendedEmpty(files, kind);
        return;
      }
      ghost var before := files;
      var months := Touched(kind, rows);
      var todo := months;
      AppendedUpToNone(before, kind, rows);
      assert months - todo == {};
      while todo != {}
        invariant todo <= months
        invariant files == AppendedUpTo(before, kind, rows, months - todo)
        decreases todo
      {
        var key :| key in todo;
        ghost var done := months - todo;
        AppendedPending(before, kind, rows, done, key);
        AppendedStep(before, kind, rows, done, key);
        MergeGroup(key, ChunkOf(rows, key));
        DoneStep(months, todo, key);
        todo := todo - {key};
      }
      assert months - todo == Touched(kind, rows);
      AppendedUpToAll(before, kind, rows);
      if Consistent(before) {
        AppendedConsistent(before, kind, rows);
      }
    }
  }
}
